# A verified model of Cyber RT's lock-free core, message path and record files

Each module models one component of Cyber RT and proves what the component promises.

**Lock-free primitives.** `BoundedQueue`, `ObjectPool`, `AtomicHashMap` and `RWLock` are state machines. Every atomic
load, compare-and-swap, fetch-add and access to a plain shared field is one step of one of any number of threads;
a schedule is any sequence of steps. Weak compare-and-swap may fail for no reason, and a plain read that races with
a write yields any value. The main theorems hold for every schedule:

- *Linearizability*: each call takes effect at one step of its own, and the resulting history is legal for a FIFO
  queue, for a ledger of free and held nodes, for a mathematical map.
- *Answers*: a thread leaves a call only at a step whose event is the answer to that call, with the arguments that it was
  started with; and from wherever it is, it finishes when nobody disturbs it.
- *Shape*: the free list is one finite path without repetition, and free + held + in release = capacity; each bucket is
  a finite list sorted strictly by key that never loses an entry.
- *Exclusion and bounded overtaking* for the lock.
- *Exactly when* `Enqueue` gives up. "It failed, so the queue was full" is false; a run shows that, and the
  condition that is right is proved as an if-and-only-if.

`Masks` proves why the template guard on the table size makes `key & (TableSize - 1)` a bucket index. `GlobalData` puts
the name registries on top of the map.

**Message path.** `DataPath` has the ring buffer, the channel buffer and the visitor as classes, proved against the
history of all messages. `WakeUp` is the state machine of dispatchers, processors and one coroutine; it shows that
no wake-up is lost and that a dispatched message reaches the waiting routine.

**Record files.** `RecordFile` defines sections, time windows and the stable sort (`SortIsStable`, `SortIsUnique` say
that it is one, and the only one), `RecordItems` the declarations and messages that sections carry. `RecordReader` and
`RecordViewer` show that chunk skipping, one-second windows, buffering and clamping together are one filter and one stable
sort. `Cuts` is about cutting a stream at a size limit and an interval: where the cuts are depends on the messages and the
limits alone. `RecordWriter` shows which calls each segment's file writer gets. `RecordFileWriter` is the state machine
of the writing thread and the flush thread: nothing is lost, the order of the calls is kept exactly if the flush thread
keeps up, and then the chunks depend on the messages and the limits alone. What it writes under stated conditions
satisfies what the readers assume, and is read back unchanged. `Spliter` shows that skipping chunks equals filtering every
message. `RecordOnDisk` puts these together: what a recording and a split leave in their files, for every interleaving
with the flush threads. `RecordOrder` says when a file keeps the order of the calls, for a run and then for the calls
alone. `RecordNames` says how long segment files last before their names are used again, and `FlushShutdown` when Close
ends.

## Reading the model

- Steps are sequentially consistent. Counters and ids are natural numbers that do not overflow, except the 64-bit
  ids of `GlobalData` and the times of `RecordViewer`, whose limits are written out.
- A thread's program counter carries its locals. History variables (elements in the order of their tail CAS, who answers
  for a node, published entries, messages ever filled) are fields described as history; no step depends on them, except
  that a client of the pool returns only a node that it holds.
- Memory is never reclaimed, so a cell is not reused while a thread may still hold a pointer to it. The nodes of the
  object pool are reused, and the change counter that protects them is modelled.
- The readers and the splitter are modelled for any file. Their main results are about files that are `WellFormed` (each
  chunk header is followed by its body and bounds its times); for the readers, also with messages in time order within
  the header's span. `RecordFileWriter.FileReadable`, `OrderlyFileWellFormedExactlyWhen` and `OrderKeptExactlyWhen` say when
  written files are like that.
- `RecordWriter` and `Spliter` end in calls on a RecordFileWriter. Their outputs are these calls, in order; `RecordOnDisk`
  is about the files.
- The notify callback and the processor loop are taken from the classic scheduling policy: clear the flag if the routine
  waits for data or I/O; acquire, update the state, resume if READY, release.

## Findings

- `Enqueue` can return false on an empty queue, when the tail it loaded is behind the head by a multiple of the pool size
  (`EnqueueCanFailOnEmptyQueue`, `EnqueueFailsExactlyWhen`). Without another producer it does not (`LoneProducer`).
- A chunk's header does not bound its messages when one has time zero and the last has not, because zero stands for "no
  message yet" (`HeaderBoundsBody`). Of the times 0 and 5, written in order, the reader and the splitter miss the first in
  every window that ends before 5 (`ZeroTimeFile`, `ReaderMissesZero`, `SpliterMissesZero`).
- When the writing thread fills a second chunk before the first one is written, the two chunks change places in the file
  (`OvertakingReorders`, `OrderKeptExactlyWhen`), although the messages came in time order. This can happen to some run
  exactly if the messages fill at least two chunks (`NeverOvertakenExactlyWhen`, `OrderAlwaysKeptExactlyWhen`).
- A declaration made after a message can come before it in the file (`DeclarationOvertakes`), exactly if it is made while a
  chunk holds a message (`ItemsKeptExactlyWhen`); a writer is safe from it exactly if it gets all declarations first
  (`ItemsAlwaysKeptExactlyWhen`). The other way round is impossible: no message comes before a declaration that it followed
  (`FileOfCalls`).
- Proc refuses a window of one instant. So two splits that meet can lose the messages of an instant, and splitting twice can
  give more than splitting once (`AdjacentSplitsConserveExactlyWhen`, `AdjacentSplitsCanLose`, `SplitsComposeExactlyWhen`,
  `SplitsCanDiffer`). In a file with a chunk header that does not bound its chunk they can lose more
  (`UnboundedChunkLoses`, `AdjacentSplits`).
- The segment file after 100000 others overwrites the first. A segment is still on disk at the end exactly if fewer than
  100000 came after it (`RecordNames.StillThereExactlyWhen`, `RecordingStays`, `ManySegments`).
- Close can hang in its join. It does, unless the flush thread wakes up for no reason, exactly if its notification falls
  between the flush thread's test and its sleep (`CloseCanHang`, `HangsExactlyWhen`).
- A split of a file without an index copies everything and then reports failure (`Spliter.Proc`).

## Model

| member | source | states |
|---|---|---|
| `BoundedQueue.GetIndex` | cyber/base/bounded_queue.h:229-232 | the division form stays within the pool |
| `BoundedQueue.IndexInjective` | cyber/base/bounded_queue.h:229-232 | positions less than one pool size apart never share a slot |
| `BoundedQueue.IndexPeriodic` | cyber/base/bounded_queue.h:229-232 | positions one pool size apart share their slot |
| `BoundedQueue.IndexCongruent` | cyber/base/bounded_queue.h:229-232 | two positions share a slot exactly if their distance has index zero |
| `BoundedQueue.InitInv` | cyber/base/bounded_queue.h:95-107 | a new queue of `size + 2` slots satisfies the invariant |
| `BoundedQueue.StepOwn` | cyber/base/bounded_queue.h:110-169 | every step of Enqueue and Dequeue keeps counters, slots and the thread's own locals consistent |
| `BoundedQueue.StepOther` | cyber/base/bounded_queue.h:110-169 | no step disturbs what another thread relies on |
| `BoundedQueue.StepInv` | cyber/base/bounded_queue.h:110-169 | every step of any thread keeps the invariant |
| `BoundedQueue.StepOrder` | cyber/base/bounded_queue.h:110-169 | a dequeue returns the element reserved at the head's position, a commit publishes the next reserved one, and Dequeue fails only when nothing is committed |
| `BoundedQueue.StepRefines` | cyber/base/bounded_queue.h:110-169 | each event has its FIFO effect at the step that causes it; no other step changes the contents |
| `BoundedQueue.Linearizable` | cyber/base/bounded_queue.h:110-169 | in every interleaving the history of calls is legal for a FIFO queue and ends with its contents |
| `BoundedQueue.EveryCallIsAnswered` | cyber/base/bounded_queue.h:110-169 | in every schedule a thread stays inside its Enqueue, with the element it was called with, until its answer: the commit of that element after its reservation, or false; and inside its Dequeue until an element or false |
| `BoundedQueue.StepAnswers` | cyber/base/bounded_queue.h:110-169 | the same for one step, which moves no other thread |
| `BoundedQueue.InOrder` | cyber/base/bounded_queue.h:110-169 | what is dequeued between two states is exactly the reserved elements between the two heads |
| `BoundedQueue.DequeuedIsPrefix` | cyber/base/bounded_queue.h:110-169 | from a new queue, the dequeued elements in head order are a prefix of the enqueued ones in tail order: none lost, repeated, reordered or torn |
| `BoundedQueue.Bounded` | cyber/base/bounded_queue.h:95-130 | in every reachable state head < commit <= tail <= head + size + 1, so at most `size` elements are in the queue |
| `BoundedQueue.ProducersDisjoint` | cyber/base/bounded_queue.h:119-127 | a producer never writes a slot with an unconsumed element or one that another producer holds |
| `BoundedQueue.OneOwner` | cyber/base/bounded_queue.h:119-127 | each reserved, uncommitted position belongs to exactly one producer |
| `BoundedQueue.SomeProducerCanCommit` | cyber/base/bounded_queue.h:119-127 | while anything is uncommitted, the owner of the next position commits within three of its own steps |
| `BoundedQueue.SpinnerAdvances` | cyber/base/bounded_queue.h:123-127 | a spinning producer's distance to its turn falls by one with every commit and never grows; at its turn it returns |
| `BoundedQueue.EnqueueFailsExactlyWhen` | cyber/base/bounded_queue.h:113-118 | Enqueue gives up exactly if its tail is current and the queue full, or its tail is behind the head by a multiple of the pool size |
| `BoundedQueue.EnqueueCanFailOnEmptyQueue` | cyber/base/bounded_queue.h:113-118 | a run in which Enqueue fails on an empty queue with room for one |
| `BoundedQueue.LoneProducer` | cyber/base/bounded_queue.h:113-121 | an Enqueue during which no producer reserves, whatever the consumers do, gives up exactly if the queue is full at its test, and its swap fails only spuriously |
| `BoundedQueue.SoloEnqueueFull` | cyber/base/bounded_queue.h:110-118 | an Enqueue that no other thread disturbs fails on a full queue and changes nothing |
| `BoundedQueue.SoloEnqueue` | cyber/base/bounded_queue.h:110-130 | an Enqueue that no other thread disturbs, on a queue with room, appends its element |
| `BoundedQueue.SoloDequeue` | cyber/base/bounded_queue.h:156-169 | an undisturbed Dequeue takes the oldest element |
| `BoundedQueue.SoloDequeueEmpty` | cyber/base/bounded_queue.h:156-163 | on an empty queue it fails and changes nothing |
| `BoundedQueue.ObstructionFree` | cyber/base/bounded_queue.h:110-169 | from any point of a call, also after lost swaps, at most seven undisturbed steps finish it, unless another producer has yet to commit |
| `BoundedQueue.FullMeansSize` | cyber/base/bounded_queue.h:95-107 | a queue made for `size` elements is full with exactly `size` |
| `ObjectPool.BuildArena` | cyber/base/concurrent_object_pool.h:73-78 | the constructor's loop links every node to the following one and the last to null |
| `ObjectPool.InitInv` | cyber/base/concurrent_object_pool.h:73-78 | the new pool satisfies the invariant |
| `ObjectPool.StepOwn` | cyber/base/concurrent_object_pool.h:94-148 | every step keeps the links spelling out the free list, because a swap that succeeds saw no change since its load |
| `ObjectPool.StepEffect` | cyber/base/concurrent_object_pool.h:94-148 | the head changes only together with its count, and nodes in other hands are left alone |
| `ObjectPool.StepInv` | cyber/base/concurrent_object_pool.h:94-148 | every step of any thread keeps the invariant |
| `ObjectPool.StepPlace` | cyber/base/concurrent_object_pool.h:94-148 | a node handed out was free, FindFreeHead fails only on an empty list, and a release moves exactly its node |
| `ObjectPool.StepRefines` | cyber/base/concurrent_object_pool.h:94-148 | each event has its effect on the ledger of free and held nodes at its own step |
| `ObjectPool.Linearizable` | cyber/base/concurrent_object_pool.h:94-148 | in every interleaving the history is legal for the ledger: no node is handed out twice |
| `ObjectPool.EveryCallIsAnswered` | cyber/base/concurrent_object_pool.h:94-148 | in every schedule a thread leaves GetObject only with a node or null, and a release only with its own node back in the pool |
| `ObjectPool.FreeListShape` | cyber/base/concurrent_object_pool.h:73-148 | in every reachable state one repetition-free path leads from the head to null, it is exactly the free nodes, and free + held + in release = capacity |
| `ObjectPool.Conservation` | cyber/base/concurrent_object_pool.h:73-148 | the arena splits into free list, held and in-flight nodes |
| `ObjectPool.HandsDisjoint` | cyber/base/concurrent_object_pool.h:137-148 | a node on its way back is in the hands of exactly one thread |
| `ObjectPool.PathUnique` | cyber/base/concurrent_object_pool.h:73-78 | following the links from a pointer gives one path only |
| `ObjectPool.SwapLosesOnlyToProgress` | cyber/base/concurrent_object_pool.h:103-105 | a swap that finds another head lost to a completed operation: the count has grown |
| `ObjectPool.SoloGet` | cyber/base/concurrent_object_pool.h:94-108 | an undisturbed GetObject takes the first free node |
| `ObjectPool.SoloRelease` | cyber/base/concurrent_object_pool.h:137-148 | an undisturbed release puts its node first in the list |
| `ObjectPool.SoloGetEmpty` | cyber/base/concurrent_object_pool.h:94-115 | on an empty pool GetObject returns null and changes nothing |
| `ObjectPool.ObstructionFree` | cyber/base/concurrent_object_pool.h:94-148 | from any point of a call at most six undisturbed steps finish it |
| `Masks.AndPow2` | cyber/base/atomic_hash_map.h:46-49 | masking with 2^k - 1 is the remainder by 2^k |
| `Masks.GuardIsPow2` | cyber/base/atomic_hash_map.h:36-39 | the template guard admits only powers of two |
| `Masks.Pow2IsAdmitted` | cyber/base/atomic_hash_map.h:36-39 | it admits every power of two |
| `Masks.MaskIsModulo` | cyber/base/atomic_hash_map.h:46-79 | for an admitted size, `key & (size - 1)` is `key % size` |
| `AtomicHashMap.Bucket` | cyber/base/atomic_hash_map.h:46-79 | the bucket index is within the table |
| `AtomicHashMap.BucketIsModulo` | cyber/base/atomic_hash_map.h:46-79 | the bucket index is the key modulo the table size |
| `AtomicHashMap.InitInv` | cyber/base/atomic_hash_map.h:40-42 | the empty table satisfies the invariant |
| `AtomicHashMap.StepOwn` | cyber/base/atomic_hash_map.h:112-188 | every step of Has, Get and Insert keeps each bucket's links leading to the next larger key |
| `AtomicHashMap.StepInv` | cyber/base/atomic_hash_map.h:112-188 | every step of any thread keeps the invariant |
| `AtomicHashMap.LinkOk` | cyber/base/atomic_hash_map.h:171-184 | a successful swap of `prev->next` inserts the entry at its place in key order |
| `AtomicHashMap.SeekSettles` | cyber/base/atomic_hash_map.h:125-145 | where Find stops, the next entry has the key exactly if the key is in the table at all |
| `AtomicHashMap.StepRefines` | cyber/base/atomic_hash_map.h:112-188 | each step has its event's effect on the represented map, and no other |
| `AtomicHashMap.StepMeaning` | cyber/base/atomic_hash_map.h:112-188 | a Set that takes effect changes the map at its key to its value, nothing else changes it, and each answer is true of the map |
| `AtomicHashMap.Linearizable` | cyber/base/atomic_hash_map.h:46-79 | in every interleaving the table is one mathematical map: Set takes effect at its swap, and the answers of Has and Get are right at a step of the call |
| `AtomicHashMap.EveryCallIsAnswered` | cyber/base/atomic_hash_map.h:112-188 | in every schedule a thread leaves a Set only when it takes effect with the key and value it was called with, and Has and Get only with an answer about their key |
| `AtomicHashMap.MapFromEmpty` | cyber/base/atomic_hash_map.h:46-79 | the same for every run from an empty table |
| `AtomicHashMap.NothingLost` | cyber/base/atomic_hash_map.h:147-188 | no run loses a published entry or changes its key |
| `AtomicHashMap.ChainFrom` | cyber/base/atomic_hash_map.h:125-145 | following `next` ends, climbs strictly and meets every entry of the bucket with a larger key |
| `AtomicHashMap.BucketShape` | cyber/base/atomic_hash_map.h:125-188 | in every reachable state each bucket is a finite list, strictly sorted, of exactly the published entries whose keys mask to it |
| `AtomicHashMap.SoloSet` | cyber/base/atomic_hash_map.h:147-188 | an undisturbed Set finds its place and its swap succeeds |
| `AtomicHashMap.SoloCall` | cyber/base/atomic_hash_map.h:46-79 | every undisturbed call completes: Set takes effect, Has and Get answer exactly what is in the table |
| `AtomicHashMap.SwapLosesOnlyToProgress` | cyber/base/atomic_hash_map.h:158-184 | a swap that finds another pointer than its thread loaded lost to a Set of another thread that took effect since the load |
| `AtomicHashMap.ObstructionFree` | cyber/base/atomic_hash_map.h:112-188 | from any point of a call undisturbed steps finish it |
| `RWLock.StepWait` | cyber/base/atomic_rw_lock.h:94-110 | the wait count stays the number of writers between increment and decrement |
| `RWLock.StepLock` | cyber/base/atomic_rw_lock.h:62-114 | the lock number stays -1 with one writer and no reader, or the number of readers with no writer |
| `RWLock.StepInv` | cyber/base/atomic_rw_lock.h:62-114 | every step of any thread keeps the invariant |
| `RWLock.Excludes` | cyber/base/atomic_rw_lock.h:62-114 | in every reachable state a writer is alone, and both counters are exact |
| `RWLock.StepGate` | cyber/base/atomic_rw_lock.h:65-77 | while a writer waits nobody passes the gate, and a thread that takes the read lock leaves the ones that had |
| `RWLock.BoundedOvertaking` | cyber/base/atomic_rw_lock.h:62-110 | while a writer waits, the read lock goes only to threads already past the gate, to each at most once |
| `RWLock.FreeLockIsTaken` | cyber/base/atomic_rw_lock.h:62-110 | a free lock is taken by a waiting writer's next swap; an unclaimed one by a reader's fourth step |
| `RWLock.UnlockReleases` | cyber/base/atomic_rw_lock.h:109-114 | unlocking gives back exactly what the thread had; a writer withdraws its claim once it is in |
| `RWLock.StepStatus` | cyber/base/atomic_rw_lock.h:62-114 | ReadLock returns only with the read lock and WriteLock only with the write lock; a holder's next step is its unlock |
| `RWLock.ReaderGetsIn` | cyber/base/atomic_rw_lock.h:62-92 | from any point of ReadLock, also after being turned away, four undisturbed steps take the read lock once no writer has or claims it |
| `RWLock.WriterGetsIn` | cyber/base/atomic_rw_lock.h:94-110 | from any point of WriteLock four undisturbed steps take a free lock |
| `GlobalData.Registry.Register` | cyber/common/global_data.cc:168-181 | the probe loop ends while an id is free or has the name; the id is the hash plus the number of ids from there on that other names have taken, modulo 2^64 |
| `GlobalData.StaysRegistered` | cyber/common/global_data.cc:168-189 | a registered id keeps its name through any run |
| `GlobalData.IdsIdentifyNames` | cyber/common/global_data.cc:168-189 | for any hash and any run, two registrations give the same id exactly if they give the same name, and the id yields the name ever after |
| `GlobalData.RegisterAll` | cyber/common/global_data.cc:168-189 | the class, driven by any sequence of up to 2^64 names: every call returns, equal names and only those get equal ids, GetById of every id gives its name in the end and of any other id the empty string |
| `Rings.SlotsDiffer` | cyber/data/cache_buffer.h:87-87 | positions closer than the capacity have different slots |
| `Rings.SlotsRepeat` | cyber/data/cache_buffer.h:87-87 | positions one capacity apart share their slot |
| `DataPath.CacheBuffer.constructor` | cyber/data/cache_buffer.h:36-39 | an empty ring of capacity size + 1 |
| `DataPath.CacheBuffer.GetIndex` | cyber/data/cache_buffer.h:87-87 | slots are within the buffer |
| `DataPath.CacheBuffer.Fill` | cyber/data/cache_buffer.h:68-81 | the history grows by the message, and every retained position still holds its original one |
| `DataPath.FetchPosition` | cyber/data/channel_buffer.h:56-77 | nothing to fetch exactly if nothing was filled or the cursor is just past the tail; the cursor's own position exactly if at most the queue size of messages wait from there on, otherwise the latest |
| `DataPath.ChannelBuffer.Fetch` | cyber/data/channel_buffer.h:56-77 | the message fetched is the one filled at the resulting position; only a cursor beyond the next position reads whatever its slot holds |
| `DataPath.ChannelBuffer.Latest` | cyber/data/channel_buffer.h:79-88 | the last message filled, if any |
| `DataPath.ChannelBuffer.FetchMulti` | cyber/data/channel_buffer.h:90-105 | on a buffer that was filled, appends the last min(Size, n) messages, oldest first |
| `DataPath.DataVisitor.constructor` | cyber/data/data_visitor.h:177-181 | a fresh ring and a cursor at zero |
| `DataPath.DataVisitor.TryFetch` | cyber/data/data_visitor.h:183-189 | delivers the message at the fetch position and moves the cursor behind it |
| `DataPath.DeliveredInOrder` | cyber/data/data_visitor.h:183-189 | for any sequence of Fill and TryFetch, each value is the message of its position, a gap appears exactly if the consumer was more than the queue size behind, and a queue of positive size delivers only its last messages |
| `DataPath.OneFetch` | cyber/data/data_visitor.h:183-189 | what one TryFetch delivers |
| `DataPath.PositionsIncrease` | cyber/data/data_visitor.h:183-189 | delivered positions strictly increase |
| `DataPath.Drive` | cyber/data/data_visitor.h:168-189 | the classes, driven by any sequence of actions, deliver exactly that |
| `WakeUp.StepMutex` | cyber/croutine/croutine.h:176-207 | the routine has at most one processor, the one that acquired it |
| `WakeUp.StepNotice` | cyber/data/data_dispatcher.h:73-90 | every step keeps: a parked routine with something to fetch has a clear flag or a notice on its way |
| `WakeUp.StepInv` | cyber/croutine/routine_factory.h:55-68 | every step of any dispatcher or processor keeps the invariant |
| `WakeUp.NoLostWakeUp` | cyber/croutine/routine_factory.h:55-68 | in every reachable state a routine parked after a failed TryFetch, with something to fetch and no notify in flight, is in DATA_WAIT with its flag clear |
| `WakeUp.SoloToResume` | cyber/croutine/croutine.h:176-207 | a processor's Acquire and UpdateState make a waiting routine with a clear flag READY |
| `WakeUp.ResumesExactlyWhen` | cyber/croutine/croutine.h:176-207 | a processor resumes a suspended routine exactly if it is READY, waits for data or I/O with a clear flag, or sleeps and its time is over; otherwise its state stays |
| `WakeUp.SoloFetch` | cyber/croutine/routine_factory.h:55-68 | from the top of its loop the routine fetches the pending message |
| `WakeUp.SoloPark` | cyber/croutine/routine_factory.h:55-68 | without news the routine parks in DATA_WAIT and is free to be served again |
| `WakeUp.SoloReturn` | cyber/croutine/routine_factory.h:55-68 | a user function that returns leaves the routine READY at the top of its loop, one that suspends in the state it chose |
| `WakeUp.NewsIsFetchable` | cyber/data/channel_buffer.h:56-77 | there is something to fetch exactly if TryFetch would succeed |
| `WakeUp.Delivers` | cyber/scheduler/processor.cc:45-53 | a suspended routine with something to fetch gets it within seven undisturbed steps of any idle processor |
| `WakeUp.SoloDispatch` | cyber/data/data_dispatcher.h:73-90 | a dispatch fills one message in and clears the flag of a waiting routine |
| `WakeUp.DispatchDelivers` | cyber/scheduler/policy/scheduler_classic.cc:163-182 | a routine that waits for data is handed the very message that is dispatched next |
| `RecordFile.SortIsStable` | cyber/record/record_viewer.cc:156-169 | filling a multimap keyed by time sorts, and keeps the order of equal times |
| `RecordFile.SortIsUnique` | cyber/record/record_viewer.cc:156-169 | there is only one such sequence |
| `RecordReader.RecordReader.constructor` | cyber/record/record_reader.cc:32-58 | everything in the file is ahead of a new reader |
| `RecordReader.RecordReader.Reset` | cyber/record/record_reader.cc:60-65 | everything in the file is ahead again |
| `RecordReader.RecordReader.ReadNextChunk` | cyber/record/record_reader.cc:110-172 | in any file moves forward; in a well-formed one passes over messages before the window only, and gives up only at the end or at a message after the window |
| `RecordReader.RecordReader.ReadMessage` | cyber/record/record_reader.cc:75-108 | in any file moves forward and returns only messages that are ahead and in the window; in a good one, the first message of the window if there is one, with the rest of the window and everything later still ahead |
| `RecordViewer.MergedSplit` | cyber/record/record_viewer.cc:140-176 | merging window by window is merging all at once |
| `RecordViewer.UpdateTime` | cyber/record/record_viewer.cc:112-138 | the window loses only times at which no readable file has a message |
| `RecordViewer.ClampedAllIn` | cyber/record/record_viewer.cc:112-138 | clamping the window changes no reader's share |
| `RecordViewer.Sort` | cyber/record/record_viewer.cc:91-100 | Init's sort: a permutation ordered by header begin and end time |
| `RecordViewer.RecordViewer.constructor` | cyber/record/record_viewer.cc:40-49 | any list of readers: sorts them, keeps the request and clamps the window |
| `RecordViewer.RecordViewer.Reset` | cyber/record/record_viewer.cc:103-110 | the whole merged sequence of the wanted channels is to be shown again |
| `RecordViewer.RecordViewer.FillBuffer` | cyber/record/record_viewer.cc:140-176 | buffer and unread part together stay the stable sort; an empty buffer means nothing is left |
| `RecordViewer.RecordViewer.Update` | cyber/record/record_viewer.cc:60-75 | takes the first remaining message of a wanted channel, and fails only when none remains |
| `RecordViewer.OnceDistinct` | cyber/record/record_viewer.cc:148-169 | a list of readers without repetitions counts as it is |
| `RecordViewer.OnceAll` | cyber/record/record_viewer.cc:148-169 | no reader is left out |
| `RecordViewer.RecordViewer.View` | cyber/record/record_viewer.cc:178-206 | iterating yields exactly one stable sort by time of the messages of all readers, each reader once, in the requested window: a message on a requested channel, or on any if none is requested, as often as there, no others, in that order |
| `RecordViewer.SelectedIsChosen` | cyber/record/record_viewer.cc:60-75 | what Update keeps of the merged sequence: exactly the messages on requested channels, or all if none is requested, in order |
| `RecordViewer.MergedTies` | cyber/record/record_viewer.cc:156-169 | messages of equal time come in the order of the readers |
| `RecordViewer.MergedTiesOne` | cyber/record/record_viewer.cc:156-169 | and those of one reader in file order |
| `RecordViewer.HeaderSortedTimes` | cyber/record/record_viewer.cc:91-100 | the readers are ordered by begin time, and by end time among equal ones |
| `RecordWriter.RegisteredAt` | cyber/record/record_writer.cc:103-122 | the first call that registers a channel |
| `RecordWriter.CallOf` | cyber/record/record_writer.cc:124-131 | the call that wrote the n-th message: that many messages are before it |
| `RecordWriter.RecordWriter.Open` | cyber/record/record_writer.cc:37-60 | a valid writer with one empty file and no channels |
| `RecordWriter.RecordWriter.WriteChannel` | cyber/record/record_writer.cc:103-122 | a new channel is declared in the open file; a known one changes nothing |
| `RecordWriter.RecordWriter.OnNewMessage` | cyber/record/record_writer.cc:185-190 | the counts stay the totals since registration; unregistered channels are not counted |
| `RecordWriter.RecordWriter.SplitOutfile` | cyber/record/record_writer.cc:69-101 | the next file declares every registered channel once, as registered, and nothing else |
| `RecordWriter.RecordWriter.WriteMessage` | cyber/record/record_writer.cc:124-152 | the message goes to the open file, which is closed exactly if that fills it; the invariant over all files is kept |
| `RecordWriter.FilledOne` | cyber/record/record_writer.cc:132-143 | the source's test after a message is exactly that the file is over the size limit or spans more than the interval |
| `Cuts.BeginOne` | cyber/record/record_writer.cc:133-138 | the begin time is the earliest since the last message of time zero, and decides whether the part is too long |
| `RecordWriter.NextName` | cyber/record/record_writer.cc:71-79 | the k-th file's suffix is k modulo 100000 |
| `Cuts.LimitsKept` | cyber/record/record_writer.cc:140-150 | without its last message a closed part is within the size limit and, for positive times, within the interval |
| `Cuts.SegmentationIsUnique` | cyber/record/record_writer.cc:140-150 | only one way of cutting the messages meets the limits |
| `Cuts.CutUpIsRight` | cyber/record/record_writer.cc:140-150 | cutting message by message is that way |
| `RecordWriter.NewEntry` | cyber/record/record_writer.cc:124-131 | a message has a declaration before it in its segment exactly if its channel is registered |
| `RecordWriter.Record` | cyber/record/record_writer.cc:69-152 | any run of calls: the segments concatenate to the messages in order and are cut in that one way; each message follows a declaration of its channel in its own segment exactly if a call before its own registered the channel; a segment declares a channel at most once, as registered; counts are the totals since registration; the k-th file's suffix is k modulo 100000 |
| `RecordFileWriter.AddOk` | cyber/record/file/record_file_writer.h:53-68 | adding a message keeps the chunk header's begin time, end time and size right |
| `RecordFileWriter.HeaderBoundsBody` | cyber/record/file/record_file_writer.h:53-68 | a chunk header bounds its messages exactly if none has time zero or the last one has |
| `RecordFileWriter.FramedChunk` | cyber/record/file/record_file_writer.cc:171-208 | a written chunk is a header followed by its body |
| `RecordFileWriter.HeaderChunk` | cyber/record/file/record_file_writer.cc:194-200 | for messages in time order the file header spans the first to the last |
| `RecordFileWriter.SwapOrder` | cyber/record/file/record_file_writer.cc:232-236 | a swap that finds the flush chunk empty keeps the order; one that finds it unwritten puts a newer message before an older one for good |
| `RecordFileWriter.StepInv` | cyber/record/file/record_file_writer.cc:66-256 | every step of either thread keeps the invariant |
| `RecordFileWriter.NothingLost` | cyber/record/file/record_file_writer.cc:210-256 | in every run no message is lost or repeated, and after Close all are in the file |
| `RecordFileWriter.OrderKeptExactlyWhen` | cyber/record/file/record_file_writer.cc:210-256 | without an overtaking swap the closed file has the messages in the order of the calls; after one, distinct messages are never in that order |
| `RecordFileWriter.OvertakingReorders` | cyber/record/file/record_file_writer.cc:232-236 | a run that writes two messages in time order and leaves them reversed in the file |
| `RecordFileWriter.FileWellFormedExactlyWhen` | cyber/record/file/record_file_writer.cc:171-208 | every file written is well formed, exactly if each body has no message of time zero or ends with one |
| `RecordFileWriter.OrderlyFileWellFormedExactlyWhen` | cyber/record/file/record_file_writer.cc:171-231 | for a flush thread that keeps up, exactly if each chunk of the written messages, cut at the limits, is like that |
| `RecordFileWriter.FileReadable` | cyber/record/file/record_file_writer.cc:66-256 | for positive times in order and a flush thread that keeps up, the closed file holds what was written and is what readers assume |
| `RecordFileWriter.FlushWhenFull` | cyber/record/file/record_file_writer.cc:219-231 | the test for flushing is exactly that the chunk is over the size limit or spans more than the interval |
| `RecordFileWriter.ClosedChunks` | cyber/record/file/record_file_writer.cc:210-256 | the chunks of an orderly file are the messages in order, cut at the limits, the last one possibly short and none empty |
| `RecordFileWriter.ChunksDetermined` | cyber/record/file/record_file_writer.cc:210-256 | the chunks of an orderly file are a function of the messages and the limits, whatever the threads did when |
| `Cuts.ChunksAreUnique` | cyber/record/file/record_file_writer.cc:219-231 | only that function cuts a stream at the limits to its end |
| `RecordFileWriter.CloseCompletes` | cyber/record/file/record_file_writer.cc:66-95 | the two wait loops of Close end after the flush thread's part, with both chunks in the file |
| `FlushShutdown.HangsExactlyWhen` | cyber/record/file/record_file_writer.cc:97-102 | without spurious wake-ups the join never returns exactly if the notification came between the flush thread's test and its sleep |
| `FlushShutdown.CloseCanHang` | cyber/record/file/record_file_writer.cc:97-102 | such a run |
| `FlushShutdown.Ends` | cyber/record/file/record_file_writer.cc:240-256 | otherwise two steps of the flush thread let Close return |
| `RecordFileWriter.WriteThenRead` | cyber/record/record_reader.cc:75-108 | such a file is read back message by message, unchanged |
| `Spliter.Overlap` | CyberRT_tools/cyber_recorder/spliter.cc:46-53 | finds out whether a channel is on both lists |
| `Spliter.CopyBody` | CyberRT_tools/cyber_recorder/spliter.cc:131-151 | appends exactly the messages of a body that pass, in order |
| `Spliter.KeepCopies` | CyberRT_tools/cyber_recorder/spliter.cc:99-146 | the filter on any items, with the lists and the window spelled out |
| `Spliter.BlackListed` | CyberRT_tools/cyber_recorder/spliter.cc:138-142 | nothing on a black-listed channel is copied |
| `Spliter.KeepNone` | CyberRT_tools/cyber_recorder/spliter.cc:115-117 | a chunk whose header is outside the window holds nothing that passes |
| `Spliter.SkippingIsFiltering` | CyberRT_tools/cyber_recorder/spliter.cc:81-160 | in a well-formed file, skipping chunks by header keeps exactly what filtering every item keeps |
| `Spliter.Proc` | CyberRT_tools/cyber_recorder/spliter.cc:39-163 | rejects exactly an empty window, a channel on both lists, an input that does not open and a window outside the header's; otherwise copies from a well-formed input each declaration and message as often as it is there if its channel is white-listed (or no list is given) and not black-listed and, for a message, its time is in the window, nothing else, in input order; from any input nothing but such items, without the bodies skipped; success exactly if the input has an index |
| `Spliter.SplitMessages` | CyberRT_tools/cyber_recorder/spliter.cc:81-162 | for a well-formed input the messages that Proc copies are the messages of the input that pass, wherever chunks begin and end |
| `Spliter.SplitsComposeExactlyWhen` | CyberRT_tools/cyber_recorder/spliter.cc:41-67 | for well-formed files, splitting a split copies what one split by both windows does, exactly if these do not just touch at an instant with a selected message |
| `Spliter.SplitsCanDiffer` | CyberRT_tools/cyber_recorder/spliter.cc:41-45 | windows [1, 5] and [5, 9] and a message of time 5: splitting twice keeps it, the combined window is refused |
| `Spliter.AdjacentSplits` | CyberRT_tools/cyber_recorder/spliter.cc:41-162 | for any file, two splits that meet copy together what one does exactly if each copies all that the one copies in its window |
| `Spliter.AdjacentSplitsConserveExactlyWhen` | CyberRT_tools/cyber_recorder/spliter.cc:41-67 | for a well-formed file, exactly if nothing is selected at an instant that is a window by itself |
| `Spliter.AdjacentSplitsCanLose` | CyberRT_tools/cyber_recorder/spliter.cc:41-45 | window [1, 3] cut at 1: the message of time 1 is lost |
| `Spliter.UnboundedChunkLoses` | CyberRT_tools/cyber_recorder/spliter.cc:115-124 | a file with a chunk header that does not bound its chunk: [0, 9] cut at 4 loses the message of time 0 |
| `RecordOnDisk.FileOfCalls` | cyber/record/file/record_file_writer.cc:66-256 | for every interleaving, the closed file holds the messages of the calls and no others, in their order if the flush thread kept up, and the declarations in their order; the messages before each declaration are among those before it in the calls |
| `RecordOnDisk.DeclarationOvertakes` | cyber/record/file/record_file_writer.cc:151-169 | a run in which a declaration made after a message comes before it in the file |
| `RecordOnDisk.OrderlyRun` | cyber/record/file/record_file_writer.cc:210-256 | every sequence of calls has a closed run in which the flush thread keeps up |
| `RecordOrder.ItemsKeptExactlyWhen` | cyber/record/file/record_file_writer.cc:151-169 | the file has declarations and messages in the order of the calls exactly if no chunk was overtaken and no declaration was made while a chunk held a message |
| `RecordOrder.DeclarationsFirst` | cyber/record/file/record_file_writer.cc:151-169 | calls with all declarations first keep their order if the flush thread keeps up |
| `RecordOrder.ItemsAlwaysKeptExactlyWhen` | cyber/record/file/record_file_writer.cc:151-238 | every run of the calls without overtaking keeps their order exactly if no declaration comes after a message |
| `RecordOrder.NeverOvertakenExactlyWhen` | cyber/record/file/record_file_writer.cc:210-238 | no run of the calls has a chunk overtaken exactly if their messages fill at most one chunk |
| `RecordOrder.OrderAlwaysKeptExactlyWhen` | cyber/record/file/record_file_writer.cc:210-256 | every run of the calls keeps the order of distinct messages exactly if they fill at most one chunk |
| `RecordOnDisk.RecordingOnDisk` | cyber/record/record_writer.cc:69-152 | for any run of calls and any interleavings, the file that a segment is written to gets its messages and declarations; the files together get the messages, in order if the flush threads kept up; no file has more messages before a channel's declaration than its segment, and none if the channel was registered before its messages |
| `RecordNames.StillThereExactlyWhen` | cyber/record/record_writer.cc:71-79 | a segment's file is not overwritten exactly if fewer than 100000 segments come after it |
| `RecordNames.AllStillThereExactlyWhen` | cyber/record/record_writer.cc:71-79 | no segment's file is overwritten exactly if there are at most 100000 |
| `RecordNames.RecordingStays` | cyber/record/record_writer.cc:69-152 | in the end the disk holds the files of the last 100000 segments under their own names, with the messages of the calls from there on, in order if the flush threads kept up, and those before are gone |
| `RecordNames.ManySegments` | cyber/record/record_writer.cc:140-150 | recording n messages that each exceed the size limit makes n + 1 segments and loses the first exactly from n = 100000 on |
| `RecordOnDisk.KeepsDeclared` | CyberRT_tools/cyber_recorder/spliter.cc:92-153 | a split has no more messages before a channel's declaration than its input |
| `RecordOnDisk.SplitOnDisk` | CyberRT_tools/cyber_recorder/spliter.cc:81-162 | for any input and any interleaving, the output file holds the messages that Proc copies (for a well-formed input, those that pass), in input order if the flush thread kept up, and the declarations that pass, with no more messages before a declaration than in the input |
| `RecordOnDisk.ZeroTimeFile` | cyber/record/file/record_file_writer.h:53-68 | times 0 and t, written in order: both the chunk header and the file header start at t |
| `RecordOnDisk.ReaderMissesZero` | cyber/record/record_reader.cc:75-108 | reading that file in a window that ends before t finds nothing |
| `RecordOnDisk.SpliterMissesZero` | CyberRT_tools/cyber_recorder/spliter.cc:62-67 | splitting it by a window that ends before t is refused, although the message of time 0 passes |
| `RecordOnDisk.SkippingMissesZero` | CyberRT_tools/cyber_recorder/spliter.cc:109-125 | its chunk would be skipped for such a window in any case |

## Left out

- Memory reclamation: deleting replaced values in the hash map, freeing nodes in the unbounded queue. `UnboundedQueue` is left out altogether, because its difficulty is its reference counting.
- Wrap-around of the 64-bit queue counters, of the pool's change counter and of the 32-bit lock counts, and weaker memory orders than sequential consistency.
- `Size()` and `Empty()` of the queue as separate loads; wait strategies, `WaitEnqueue`, `WaitDequeue`, and the thread pool.
- The object pool with capacity zero, which the constructor does not support, and the construction and destruction of objects in its nodes.
- Signed keys of the hash map; the bucket lists compare keys as unsigned numbers here.
- Overlapping registrations in `GlobalData`, whose probe loop is not atomic.
- GlobalData.Registry.Register: needs a free id or the name to be present, because the source's loop does not end otherwise.
- `ReentrantRWLock`, whose owner field is cleared after the counter is released.
- Data fusion, visitors of several channels, adding buffers or notifiers during a dispatch, messages before the callback is registered, forced stops and the FINISHED state of routines.
- The choreography scheduling policy, priorities, context switching and stacks.
- I/O polling and sockets, logging, class loading, parameter services, command-line tools and the monitor.
- Failures of reading, writing and opening files, except an input that cannot be opened and a file without index; unknown section types; what is left behind the index when a segment file is overwritten by a shorter one.
- RecordViewer.RecordViewer.constructor: needs files that are well formed with messages in time order, and the latest end time plus one second to be below 2^64; the order of readers with equal headers is left open, as by the source's sort.
- RecordReader.RecordReader.ReadMessage: for files that are not well formed or out of time order it does not say which messages of the window are missed; the source promises nothing there.
- RecordFileWriter.OrderKeptExactlyWhen: that an overtaking swap spoils the order is stated for distinct messages, since equal ones cannot be told apart.
- RecordOrder.ItemsKeptExactlyWhen: the same.
- WakeUp.Delivers: is about a processor that is not disturbed; fairness of the scheduler is not modelled.
- Channel list and message count getters, and the index section's contents.
