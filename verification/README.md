# A verified model of cppdatastream

This project models, in Dafny, the concurrent block pipeline of cppdatastream and the lock-free queue
under it, and two sequential cores that the repository carries, and proves what they are for:

* **The queue** (`Words`, `LightweightSemaphores`, `SemaphoreWaits`, `CircularBuffers`, `CircularBufferRuns`,
  `CircularBufferProgress`, `CircularBufferWaits`, `CircularBufferResults`).
  `LightweightSemaphore` and `BlockingReaderWriterCircularBuffer` are a transition system in which each
  atomic operation, each access to a cell and each update of a private counter is one step of one
  thread, and the threads interleave in any way. A kernel wait may fail whenever it is waited for. Cells
  are raw, live or moved from; a step that is undefined in C++ (constructing over an element, moving or
  destroying raw memory) or breaks an assertion sets a fault. The classes `LightweightSemaphore` and
  `CircularBuffer` carry the structured code: methods that update counters and cells in place, proved to
  take the steps of the transition system.
* **The pipeline** (`Streams`, `StreamLaws`, `Pipelines`, `PipelineRuns`, `PipelineTheorems`, `PipelineThrows`,
  `NodeLaws`, `PipelineProgress`, `BufferQueues`, `Processors`, `SimpleSources`). Processors and threaded
  buffers form a tree; a stage is any deterministic `processData`, a function of the blocks it has been given
  so far. The source thread and the thread of every buffer interleave freely, one access at a time.
  `Processors` has the objects, whose fields are updated in place; `SimpleSources` the example source with its
  stop flag.
* **The calendar** (`Civil`, `WeekDates`, `WeekNumbers`, `WeekLaws`): day numbers to dates and back with C++'s
  truncating division and 16-bit years, weekdays, nth-weekday dates, and the week numbers %G, %V, %U, %W.
* **Configuration files** (`ConfigSections`, `ConfigNesting`, `ConfigEntries`, `Escapes`, `EscapeLaws`,
  `BinaryStrings`, `Quoting`, `QuotingLaws`): the section events of `from_config`, and writing and reading
  string values.

The modules `...Laws`, `SemaphoreWaits`, `CircularBufferWaits`, `CircularBufferResults` and `ConfigEntries` state
what the definitions of the others come to in numbers, characters, elements and statuses alone.
`Options` and `Sequences` have the optional value and the laws of concatenation that they share.
`dafny verify dfyconfig.toml` checks the project.

Assumptions: atomic operations are sequentially consistent; one producer and one consumer; a queue
capacity from 1 to the largest signed word, words of 64 bits; `signal(1)` only; elements whose
constructors, moves and destructors do not throw; a tree of processors, fed by the thread of its source, and
stages and visitors other than sinks that do not throw. The exception of a sink whose promise is set a second
time leaves the function of the thread, so it ends the program: from then on nothing moves. A character is
a byte. A section header names at least one section, and no entry is named `++` or `--`.

Where the code does not do what one might expect of it, the exact condition is proved:

* A threaded buffer stops at the first end-of-processing block. With a stage that ends the processing
  early and then goes on, a tree with buffers shows its visitors less than one without (`EarlyEndIsCut`);
  `ThreadingIsExact` says when the two are the same.
* Once more blocks follow that end than the buffer's queue holds, the thread that pushes them offers one of
  them for ever (`SpinsForever`). And when two ends of processing arrive at a sink, its promise throws
  (`SecondEndThrows`). `CompletionIsExact` says for which trees and streams runs can be completed,
  `EveryRunComesToAnEnd` how the others end, and `SynchronousThrows` when a tree without buffers throws.
* `%G` and `%V` go wrong on the first two days of the year -32767, the least year, whose week belongs to a
  year that 16 bits do not hold (`IsoFails`); `IsoExact` proves that these are the only two days.
* After a return to the section `default`, an entry or the end of the file leaves the parents of the
  section before open (`DefaultLeavesOpen`); `WellBracketed` says exactly for which files.
* A text that does not print does not read back when a quote stands inside it, other than as its first or
  last character (`BinaryLosesText`), or when it holds a backslash, an x and two hexadecimal digits;
  `RoundTrip` proves that it does in all other cases.

## Model

| member | source | states |
|---|---|---|
| Words.Smear | include/cppdatastream/moodycamel/readerwritercircularbuffer.h:47-50 | one or-with-shift by s doubles a run of s leading one digits and puts nothing above it |
| Words.RoundUpMask | include/cppdatastream/moodycamel/readerwritercircularbuffer.h:44-51 | for every word, the rounding gives a mask of ones, and for a capacity from 1 on mask + 1 is the least power of two that is at least the capacity; capacity 0 wraps to a mask of all ones and no cells |
| Words.SmearRest | include/cppdatastream/moodycamel/readerwritercircularbuffer.h:50 | the loop over the shifts 8, 16, 32 fills all digits below the highest one |
| Words.WrappedIndex | include/cppdatastream/moodycamel/readerwritercircularbuffer.h:276-277 | a counter that wraps at the machine word addresses, through the mask, the unbounded counter modulo the number of cells |
| Words.ModDistinct | include/cppdatastream/moodycamel/readerwritercircularbuffer.h:276-285 | two indices less than the number of cells apart never share a cell |
| LightweightSemaphores.WaiterStepAccounted | include/cppdatastream/moodycamel/atomicops.h:686-738 | every atomic operation of a wait keeps the accounting of count, registered waiter, rollback gap and kernel posts, takes one permit exactly when the wait returns true, and returns false only with no permit there |
| LightweightSemaphores.SignalStepAccounted | include/cppdatastream/moodycamel/atomicops.h:744-752 | the fetch_add and the kernel post of a signal keep the same accounting, and the old count is at least -1 |
| LightweightSemaphores.SemaphoreAccounting | include/cppdatastream/moodycamel/atomicops.h:686-758 | in every reachable state the count is the permits less a registered waiter plus the rollback gap; stored and pending kernel posts are at most one, and one exactly when a waiter is registered and a permit is there; the count is at least -1; availableApprox never overstates and misses at most the permit that a registered waiter claims |
| LightweightSemaphores.RunOneCall | include/cppdatastream/moodycamel/atomicops.h:686-742 | over any interleaving a single call consumes one permit or none, according to its result, and a returned call stays returned |
| LightweightSemaphores.TimedWaitIsExact | include/cppdatastream/moodycamel/atomicops.h:700-722 | in any race with signals, a wait that returns false has consumed nothing and leaves no registration and no kernel post, and one that returns true has consumed exactly one permit and leaves none either |
| LightweightSemaphores.FailureMeansNoPermit | include/cppdatastream/moodycamel/atomicops.h:714-717 | a wait decides to return false only at a moment with no permit at all |
| LightweightSemaphores.RetryMeansPostPending | include/cppdatastream/moodycamel/atomicops.h:718-721 | a rollback iteration whose kernel try may succeed comes round again exactly when the signaller is between its fetch_add and its kernel post, and that post then stores the wake-up |
| LightweightSemaphores.RollbackTerminates | include/cppdatastream/moodycamel/atomicops.h:714-722 | once the post has landed, the loop returns true within its next three operations, whatever further signals come between |
| LightweightSemaphores.LightweightSemaphore.constructor | include/cppdatastream/moodycamel/atomicops.h:726-729 | the semaphore starts with its permits as its count and an empty kernel semaphore |
| LightweightSemaphores.LightweightSemaphore.Signal | include/cppdatastream/moodycamel/atomicops.h:744-752 | signal(1) as a whole, with the waiting thread running between its two operations: a run of the transition system that adds one permit and posts once exactly if the old count was negative |
| LightweightSemaphores.LightweightSemaphore.SignalNext | include/cppdatastream/moodycamel/atomicops.h:744-752 | the signalling thread's next atomic operation is that of the transition system |
| LightweightSemaphores.LightweightSemaphore.TryWait | include/cppdatastream/moodycamel/atomicops.h:731-738 | with the other thread running between its operations, the code is a run of the transition system that ends where the result says |
| LightweightSemaphores.LightweightSemaphore.Wait | include/cppdatastream/moodycamel/atomicops.h:740-742 | the same for both blocking waits: a try and then the partial spinning |
| LightweightSemaphores.LightweightSemaphore.WaitWithPartialSpinning | include/cppdatastream/moodycamel/atomicops.h:686-723 | the same for the structured code of the spin loop, the registration, the kernel wait and the rollback |
| LightweightSemaphores.LightweightSemaphore.RegisterAndWait | include/cppdatastream/moodycamel/atomicops.h:700-722 | what follows the spin loop (registration, kernel wait by the sign of the timeout, rollback) is a run of the transition system |
| LightweightSemaphores.LightweightSemaphore.Spin | include/cppdatastream/moodycamel/atomicops.h:692-699 | the spin loop of 1024 loads is a run of the transition system, with the spins that are left as its state |
| LightweightSemaphores.LightweightSemaphore.Take | include/cppdatastream/moodycamel/atomicops.h:694-695 | the fetch_add after a load of a positive count, taken whatever came between, returns true with one permit |
| LightweightSemaphores.LightweightSemaphore.KernelWait | include/cppdatastream/moodycamel/atomicops.h:703-708 | a kernel wait takes a stored post, blocks without one, or fails into the rollback |
| LightweightSemaphores.LightweightSemaphore.Rollback | include/cppdatastream/moodycamel/atomicops.h:714-722 | the rollback loop is a run of the transition system, for any number of iterations |
| LightweightSemaphores.LightweightSemaphore.Retry | include/cppdatastream/moodycamel/atomicops.h:718-721 | the second half of an iteration takes the count back and tries the kernel semaphore, or comes round again |
| SemaphoreWaits.KernelWaitDecides | include/cppdatastream/moodycamel/atomicops.h:700-722 | over any interleaving with the signaller, a wait whose timeout is not zero does not return false unless a kernel wait of its own has failed |
| SemaphoreWaits.ZeroNeverSleeps | include/cppdatastream/moodycamel/atomicops.h:700-722 | tryWait and a wait of timeout zero never come to a kernel wait |
| SemaphoreWaits.UnsignalledWait | include/cppdatastream/moodycamel/atomicops.h:686-722 | on an empty semaphore that nobody signals a wait performs 1025 loads, registers with its 1026th operation and from then on sleeps for good; with timeout zero it returns false with its 1027th and leaves the semaphore as it was |
| SemaphoreWaits.TimeoutFails | include/cppdatastream/moodycamel/atomicops.h:703-717 | a kernel wait that fails while no permit is there makes the wait return false in its next operation, with the registration taken back |
| CircularBuffers.Address | include/cppdatastream/moodycamel/readerwritercircularbuffer.h:276-285 | in every state that keeps the invariant, the masked word counter falls on the cell of the unbounded index |
| CircularBuffers.SignalsFit | include/cppdatastream/moodycamel/atomicops.h:744-748 | whenever a thread of the buffer is about to signal, the count is at least -1 and has room for one more within its signed type |
| CircularBuffers.ConstructEffect | include/cppdatastream/moodycamel/readerwritercircularbuffer.h:277 | the producer's construction always hits a raw cell |
| CircularBuffers.OldestCell | include/cppdatastream/moodycamel/readerwritercircularbuffer.h:285-296 | the cell that the consumer moves from, peeks at or destroys is the oldest element's and constructed |
| CircularBuffers.ProducerRefines | include/cppdatastream/moodycamel/readerwritercircularbuffer.h:106-170 | every step of any enqueue operation keeps the invariant, has no fault, and is a step of the abstract bounded queue: none, an enqueue with room, or a failure on a full queue |
| CircularBuffers.ConsumerRefines | include/cppdatastream/moodycamel/readerwritercircularbuffer.h:200-262 | the same for every step of the dequeue operations, try_pop and peek: none, the removal or the sight of the oldest element, or a failure on an empty queue |
| CircularBuffers.StepRefines | include/cppdatastream/moodycamel/readerwritercircularbuffer.h:106-298 | every step of either thread, calls included, keeps the invariant and refines the abstract queue |
| CircularBufferRuns.LinearizableBoundedFifo | include/cppdatastream/moodycamel/readerwritercircularbuffer.h:106-298 | for every capacity and every interleaving: no undefined step and no broken assertion, the effects are accepted in order by a FIFO queue of that capacity (a failing call finds it exactly full or exactly empty), and what was dequeued is a prefix of what was enqueued |
| CircularBufferRuns.CapacityConserved | include/cppdatastream/moodycamel/readerwritercircularbuffer.h:273-298 | in every reachable state free slots, stored elements and the operation that each thread has in flight add up to the capacity, the counts stay between -1 and the capacity, and size_approx never overstates |
| CircularBufferRuns.NeverBothAsleep | include/cppdatastream/moodycamel/readerwritercircularbuffer.h:130-216 | in every reachable state a producer blocked in the kernel with no wake-up stored or on its way finds the queue full, a consumer in that place finds it empty, and the two never sleep at once |
| CircularBufferRuns.EnqueueIsAtomic | include/cppdatastream/moodycamel/readerwritercircularbuffer.h:106-170 | one enqueue call has one effect: its element enters once if it returns true, the queue was full if it returns false, nothing has happened before, and wait_enqueue never returns false |
| CircularBufferRuns.DequeueIsAtomic | include/cppdatastream/moodycamel/readerwritercircularbuffer.h:200-262 | one dequeue, pop or peek call has one effect, which names the element that it returns, or emptiness when it returns none; wait_dequeue never returns none |
| CircularBufferProgress.TryEnqueueIsWaitFree | include/cppdatastream/moodycamel/readerwritercircularbuffer.h:106-124 | try_enqueue returns within six steps of its own thread, under any interleaving |
| CircularBufferProgress.TryDequeueIsWaitFree | include/cppdatastream/moodycamel/readerwritercircularbuffer.h:199-262 | try_dequeue, try_pop and peek return within seven steps of their own thread, under any interleaving |
| CircularBufferProgress.WaitDequeueReturns | include/cppdatastream/moodycamel/readerwritercircularbuffer.h:211-230 | a wait for an element, wherever it stands, while one is in the queue and no kernel post is pending, returns an element within eight steps of its own, whatever the producer does, if the kernel lets its waits succeed |
| CircularBufferProgress.WaitEnqueueReturns | include/cppdatastream/moodycamel/readerwritercircularbuffer.h:130-170 | a wait for a slot, wherever it stands, while there is room and no kernel post is pending, returns true within seven steps of its own in the same sense |
| CircularBufferProgress.ServedStep | include/cppdatastream/moodycamel/atomicops.h:686-738 | with a permit there and no post pending, each operation of a wait brings it nearer to its return, and it returns true |
| CircularBufferProgress.WaitsUnderWay | include/cppdatastream/moodycamel/atomicops.h:740-742 | in every reachable state the waits of both threads stand at one of their operations |
| CircularBufferWaits.TimedEnqueueWaits | include/cppdatastream/moodycamel/readerwritercircularbuffer.h:151-157 | wait_enqueue_timed with a timeout other than zero does not return false, whatever the consumer does, unless a kernel wait of its own has failed |
| CircularBufferWaits.TimedDequeueWaits | include/cppdatastream/moodycamel/readerwritercircularbuffer.h:224-230 | wait_dequeue_timed with a timeout other than zero does not come back empty-handed, whatever the producer does, unless a kernel wait of its own has failed |
| CircularBufferWaits.EnqueueNeverSleeps | include/cppdatastream/moodycamel/readerwritercircularbuffer.h:106-157 | try_enqueue and wait_enqueue_timed with timeout zero never come to a kernel wait |
| CircularBufferWaits.DequeueNeverSleeps | include/cppdatastream/moodycamel/readerwritercircularbuffer.h:200-262 | try_dequeue, try_pop and wait_dequeue_timed with timeout zero never come to a kernel wait |
| CircularBufferWaits.EnqueueSleeps | include/cppdatastream/moodycamel/readerwritercircularbuffer.h:130-157 | on a full buffer wait_enqueue, and wait_enqueue_timed with a timeout other than zero, are asleep from their 1026th operation on, when the consumer does nothing |
| CircularBufferWaits.DequeueSleeps | include/cppdatastream/moodycamel/readerwritercircularbuffer.h:212-230 | on an empty buffer wait_dequeue, and wait_dequeue_timed with a timeout other than zero, are asleep from their 1026th operation on, when the producer does nothing |
| CircularBufferWaits.EnqueueTimesOut | include/cppdatastream/moodycamel/readerwritercircularbuffer.h:130-157 | when the kernel wait fails on a full buffer, wait_enqueue_timed returns false with its next operation, and wait_enqueue starts again |
| CircularBufferWaits.DequeueTimesOut | include/cppdatastream/moodycamel/readerwritercircularbuffer.h:212-230 | when the kernel wait fails on an empty buffer, wait_dequeue_timed returns nothing with its next operation, and wait_dequeue starts again |
| CircularBufferWaits.EnqueueGivesUp | include/cppdatastream/moodycamel/readerwritercircularbuffer.h:151-157 | on a full buffer wait_enqueue_timed with timeout zero returns false with its 1027th operation and leaves the buffer as it was |
| CircularBufferWaits.DequeueGivesUp | include/cppdatastream/moodycamel/readerwritercircularbuffer.h:224-230 | on an empty buffer wait_dequeue_timed with timeout zero returns nothing with its 1027th operation and leaves the buffer as it was |
| CircularBufferResults.ElementsOfStep | include/cppdatastream/moodycamel/readerwritercircularbuffer.h:273-298 | a step adds the element that the producer is signalling, when fewer than the capacity are stored, or takes the oldest one out, or changes no element |
| CircularBufferResults.FalseMeansFull | include/cppdatastream/moodycamel/readerwritercircularbuffer.h:106-170 | an enqueue decides to return false only when as many elements as the capacity are stored |
| CircularBufferResults.NoneMeansEmpty | include/cppdatastream/moodycamel/readerwritercircularbuffer.h:200-262 | a dequeue, pop or peek decides to return nothing only when no element is stored |
| CircularBufferResults.EnqueueAppends | include/cppdatastream/moodycamel/readerwritercircularbuffer.h:106-170 | an enqueue that has returned true has put its element, once, behind those that were there when it was called, and one that has returned false has added nothing, under any interleaving |
| CircularBufferResults.DequeueTakesNext | include/cppdatastream/moodycamel/readerwritercircularbuffer.h:200-262 | a dequeue or pop that has returned an element has taken out that one, the first added of those not taken out when it was called; one that has returned nothing has taken nothing out |
| CircularBufferResults.PeekShowsNext | include/cppdatastream/moodycamel/readerwritercircularbuffer.h:247-252 | a peek takes nothing out and returns, if anything, the element that a dequeue would take out |
| CircularBufferResults.DequeueFinds | include/cppdatastream/moodycamel/readerwritercircularbuffer.h:200-262 | any dequeue or pop called while an element is stored returns the oldest one within eight steps of its own, under any interleaving, if the kernel lets its waits succeed |
| CircularBufferResults.EnqueueFinds | include/cppdatastream/moodycamel/readerwritercircularbuffer.h:106-170 | any enqueue called while there is room returns true within seven steps of its own, in the same sense, with its element added |
| CircularBufferResults.PeekFinds | include/cppdatastream/moodycamel/readerwritercircularbuffer.h:247-252 | a peek called while an element is stored returns it within two steps of its own; on an empty buffer its first step returns nothing |
| CircularBufferRuns.ConstructedCells | include/cppdatastream/moodycamel/readerwritercircularbuffer.h:273-298 | in every reachable state the constructed cells are exactly those of the live indices, at most as many as the capacity |
| CircularBufferRuns.RaceFree | include/cppdatastream/moodycamel/readerwritercircularbuffer.h:273-298 | no reachable state has both threads about to touch one cell |
| CircularBufferRuns.CircularBuffer.constructor | include/cppdatastream/moodycamel/readerwritercircularbuffer.h:34-54 | a new buffer is the initial state of the transition system, with the least power of two of cells that holds its capacity |
| CircularBufferRuns.CircularBuffer.ClaimSlot | include/cppdatastream/moodycamel/readerwritercircularbuffer.h:276 | the increment of the slot counter is the producer's step and touches nothing else |
| CircularBufferRuns.CircularBuffer.ConstructElement | include/cppdatastream/moodycamel/readerwritercircularbuffer.h:277 | the in-place construction is the producer's step, and the cell was raw |
| CircularBufferRuns.CircularBuffer.SignalItem | include/cppdatastream/moodycamel/readerwritercircularbuffer.h:278 | the count goes up, the element is in the queue from here on, and a waiting consumer is still to be woken |
| CircularBufferRuns.CircularBuffer.PostItem | include/cppdatastream/moodycamel/readerwritercircularbuffer.h:278 | the kernel post completes the call and changes no element |
| CircularBufferRuns.CircularBuffer.InnerEnqueue | include/cppdatastream/moodycamel/readerwritercircularbuffer.h:273-279 | with the consumer running between any two of its operations, exactly its element is enqueued and the invariant holds; without interference it is appended to the queue |
| CircularBufferRuns.CircularBuffer.ClaimItem | include/cppdatastream/moodycamel/readerwritercircularbuffer.h:284 | the increment of the item counter is the consumer's step and touches nothing else |
| CircularBufferRuns.CircularBuffer.MoveElement | include/cppdatastream/moodycamel/readerwritercircularbuffer.h:286 | the move out of the cell is the consumer's step and takes the oldest element |
| CircularBufferRuns.CircularBuffer.DestroyElement | include/cppdatastream/moodycamel/readerwritercircularbuffer.h:287 | the destructor call is the consumer's step and leaves a raw cell |
| CircularBufferRuns.CircularBuffer.SignalSlot | include/cppdatastream/moodycamel/readerwritercircularbuffer.h:288 | the count goes up, the element is out of the queue from here on, and a waiting producer is still to be woken |
| CircularBufferRuns.CircularBuffer.PostSlot | include/cppdatastream/moodycamel/readerwritercircularbuffer.h:288 | the kernel post completes the call with its element |
| CircularBufferRuns.CircularBuffer.InnerDequeue | include/cppdatastream/moodycamel/readerwritercircularbuffer.h:281-298 | with the producer running between any two of its operations, the element that was the oldest at the start is dequeued and returned, and nothing else; without interference it leaves the front of the queue |
| CircularBufferRuns.CircularBuffer.TakeOut | include/cppdatastream/moodycamel/readerwritercircularbuffer.h:284-287 | the claim, the move and the destructor call, with interference, leave the element to be returned and the cell free, and nothing dequeued yet |
| CircularBufferRuns.CircularBuffer.GiveBack | include/cppdatastream/moodycamel/readerwritercircularbuffer.h:288 | the signal of the slot, with interference, dequeues that element |
| CircularBufferRuns.CircularBuffer.PeekElement | include/cppdatastream/moodycamel/readerwritercircularbuffer.h:247-252 | peek sees the element at the front of the queue and changes nothing |
| CircularBufferRuns.CircularBuffer.ConsumerRuns | include/cppdatastream/moodycamel/readerwritercircularbuffer.h:200-262 | any actions of the consumer thread, in place, are a run of the transition system that leaves the producer and what was enqueued alone |
| CircularBufferRuns.CircularBuffer.ProducerRuns | include/cppdatastream/moodycamel/readerwritercircularbuffer.h:106-170 | any actions of the producer thread, in place, are a run that leaves the consumer and what was dequeued alone |
| CircularBufferRuns.CircularBuffer.Destroy | include/cppdatastream/moodycamel/readerwritercircularbuffer.h:71-78 | with both threads outside the buffer, the destructor destroys as many elements as are stored, each of them live at that moment, and leaves every cell raw |
| CircularBufferRuns.DestroyNext | include/cppdatastream/moodycamel/readerwritercircularbuffer.h:75-76 | each pass of that loop meets the oldest element left, which is live |
| Streams.OutputsAreCutAnswers | include/cppdatastream/DataStream.hpp:255-270 | the error latch cuts what a stage answers after its first error and changes nothing else |
| Streams.OutputsMonotone | include/cppdatastream/DataStream.hpp:255-283 | more input extends what a latching stage puts out |
| Streams.CompleteOutputs | include/cppdatastream/DataStream.hpp:255-283 | a stage that passes end-of-processing blocks through and makes none but errors turns data* EOP into data* EOP, no longer than its input |
| Streams.FirstFailureWins | include/cppdatastream/DataStream.hpp:255-283 | along a path, latching stage by stage equals cutting the unlatched answers at the first block on which any stage fails |
| Streams.FirstFailingStageDecides | include/cppdatastream/DataStream.hpp:255-283 | on one block the first failing stage decides what arrives at the end of the path |
| Streams.StatusAtEnd | include/cppdatastream/DataStream.hpp:255-283 | data* EOP arrives as data* EOP, and its status is that of the first failing block and the first stage that fails on it, or else the source's |
| Streams.SinkExact | include/cppdatastream/DataStream.hpp:426-441 | for every sequence of blocks the promise has the status of the first end-of-processing block, if there was one, and setting it has thrown exactly if there were two |
| Streams.SinkSetOnce | include/cppdatastream/DataStream.hpp:426-441 | over a stream with no end-of-processing block but the last, the sink's promise never throws and has the status of the last block |
| StreamLaws.LatchesOnError | include/cppdatastream/DataStream.hpp:257-270 | when the k-th answer of a stage is its first whose status has the type EopError, the stage has put out its answers up to that one and no more |
| StreamLaws.NeverLatches | include/cppdatastream/DataStream.hpp:257-270 | a stage none of whose answers has a status of that type, with success, cancellation or none, answers every block |
| StreamLaws.FirstStatusCounts | include/cppdatastream/DataStream.hpp:361-366 | a threaded buffer delivers the blocks up to the first with a status of any type; a sink has that status, and throws exactly if another block with one follows |
| StreamLaws.NoStatus | include/cppdatastream/DataStream.hpp:361-366 | without a status, all blocks are delivered and the promise stays unset |
| NodeLaws.LatchedDrops | include/cppdatastream/DataStream.hpp:257-259 | behind a latched error a push reaches no stage, no visitor and no processor |
| NodeLaws.StageCalled | include/cppdatastream/DataStream.hpp:261-270 | otherwise the stage is called with the block, and its answer latches exactly if its status has the type EopError |
| NodeLaws.OwnSinkThrows | include/cppdatastream/DataStream.hpp:272-279 | when the answer has a status and visitor v is the first sink that has been shown one, the visitors up to v are shown the answer, no other visitor and no processor gets anything, and the push throws |
| NodeLaws.VisitorsThenProcessors | include/cppdatastream/DataStream.hpp:272-282 | otherwise all visitors are shown the answer, and then it is pushed into the processors in their order, up to the first one that throws |
| NodeLaws.NodeOfRun | include/cppdatastream/DataStream.hpp:255-368 | at every node of every reachable state the answers are those of the stage to the blocks received, in order; none but the last has a status of type EopError, and the flag is set exactly if that one has; the visitors have been shown all answers but at most the last; a threaded buffer has taken nothing after a block with a status |
| NodeLaws.BufferInFront | include/cppdatastream/DataStream.hpp:293-312 | a fresh buffer in front of any tree with buffers in it is again such a tree |
| NodeLaws.BufferBelow | include/cppdatastream/DataStream.hpp:293-312 | any child of a synchronous tree may be replaced by itself with buffers in it |
| NodeLaws.ThreadedFront | include/cppdatastream/DataStream.hpp:255-368 | with a threaded buffer in front of any synchronous tree and no status before the last block, when the run is complete each processor has received and each of its visitors has been shown exactly what it gets without the buffer |
| Pipelines.LocalStepInv | include/cppdatastream/DataStream.hpp:255-283 | every step of a thread at a node (latch test, processing, visit, hand-over) keeps the invariant of the subtree |
| Pipelines.OfferInv | include/cppdatastream/DataStream.hpp:341-352 | pushing into a plain node or into a buffer with room keeps the invariant for the longer input |
| Pipelines.StepAtInv | include/cppdatastream/DataStream.hpp:255-368 | a step anywhere in the tree, of any thread, keeps the invariant of the whole tree |
| PipelineRuns.ReachableInv | include/cppdatastream/DataStream.hpp:255-368 | the invariant holds after every run: what each node has received, put out, shown and sent follows from what was pushed into the root |
| PipelineRuns.InvSeesPrefix | include/cppdatastream/DataStream.hpp:255-368 | at any moment every stage and visitor has seen a prefix of what the whole input leads to |
| PipelineRuns.QuietSeesAll | include/cppdatastream/DataStream.hpp:255-368 | when nothing is in flight every stage and visitor has seen all of it, behind a buffer up to the first end-of-processing block |
| PipelineRuns.PushAllInv | include/cppdatastream/DataStream.hpp:255-283 | the recursive pushData of a tree without buffers keeps the same invariant, so both are compared with the same outputs |
| PipelineTheorems.ThreadingShowsPrefix | include/cppdatastream/DataStream.hpp:255-368 | with buffers inserted anywhere into a synchronous tree of any deterministic stages, for any input and any interleaving, each visitor has at any moment been shown a prefix of what the synchronous tree shows it when no sink throws |
| PipelineTheorems.ThreadingIsExact | include/cppdatastream/DataStream.hpp:255-368 | when the run is complete, every processor and visitor has got exactly what it gets in the synchronous tree when no sink throws, if and only if no buffer is sent a block after an end-of-processing block |
| PipelineThrows.SynchronousReturns | include/cppdatastream/DataStream.hpp:255-368 | if no buffer is sent a block after an EOP and the run with buffers completes, the synchronous tree does not throw, and leaves the same |
| PipelineThrows.SynchronousThrows | include/cppdatastream/DataStream.hpp:255-283 | the recursive pushData of a tree without buffers throws exactly if two ends of processing arrive at one of its sinks; otherwise it does what it does without exceptions |
| PipelineTheorems.ThreadingIsTransparent | include/cppdatastream/DataStream.hpp:255-368 | the two are the same in particular for data* EOP and stages that pass the end through and end early on errors only |
| PipelineProgress.EarlyEndIsCut | include/cppdatastream/DataStream.hpp:358-368 | a stage that answers its first block with a success EOP, in front of a buffer, fed data and EOP: every run can be continued to a complete one in which the visitor behind the buffer has been shown the early EOP alone |
| PipelineProgress.EarlyEndIsShown | include/cppdatastream/DataStream.hpp:255-283 | the tree without the buffer, into which the buffer is inserted, shows the visitor both ends |
| PipelineTheorems.SinkResolves | include/cppdatastream/DataStream.hpp:418-449 | for any stages, any stream and any interleaving, a sink has no status but that of the first EOP that arrives at it, and throws, which ends the run, only if two arrive; when a run is complete, two have not arrived, and the sink has the status of the one that has, if one has |
| PipelineTheorems.SinkResolvesOnce | include/cppdatastream/DataStream.hpp:418-449 | with stages that pass the end through and end early on errors only, and data* EOP pushed in: under every interleaving a sink's promise never throws, carries no other status than the one that arrives at the end of its path of stages, and is set when the run is complete |
| PipelineThrows.NeverThrows | include/cppdatastream/DataStream.hpp:426-441 | if two ends of processing arrive at no sink of the tree, no reachable state has thrown |
| PipelineThrows.CompletedOnce | include/cppdatastream/DataStream.hpp:426-441 | if two arrive at one, no run completes |
| PipelineThrows.OnceAt | include/cppdatastream/DataStream.hpp:426-441 | the condition of these, read off a sink's place: at most one EOP is among what arrives at its node |
| PipelineThrows.BehavedOnce | include/cppdatastream/DataStream.hpp:255-283 | two arrive at none whenever stages pass the end through and end early on errors only, and nothing is pushed after the first EOP |
| PipelineThrows.PushReturns | include/cppdatastream/DataStream.hpp:255-283 | a push that no exception leaves does what it does without exceptions |
| PipelineThrows.PushCrashes | include/cppdatastream/DataStream.hpp:255-283 | if one leaves it, a sink of the subtree has been shown two ends |
| PipelineThrows.PushKeeps | include/cppdatastream/DataStream.hpp:255-283 | if none does, no sink of the subtree has thrown that had not before |
| PipelineTheorems.BackPressure | include/cppdatastream/DataStream.hpp:341-368 | for any stages, input and interleaving and a buffer anywhere in the tree, the pushes it has accepted exceed its completed deliveries by at most maxBlocks + 1; nothing after the first EOP is delivered, and at most maxBlocks pushes after it return |
| PipelineProgress.NoDeadlock | include/cppdatastream/DataStream.hpp:341-368 | for any stages and any stream, if no buffer is sent more blocks after its first EOP than its queue holds (and every queue holds one), no reachable state is stuck: it is complete, a sink has thrown, or somebody can take a step |
| PipelineProgress.EveryRunEnds | include/cppdatastream/DataStream.hpp:255-368 | however the threads are scheduled, the steps that change anything are bounded by the blocks pushed times a cost of the tree |
| PipelineProgress.EveryRunCanComplete | include/cppdatastream/DataStream.hpp:255-368 | if no buffer is sent more than that and two EOPs arrive at no sink, every reachable state can be continued to completion |
| PipelineProgress.CompletionIsExact | include/cppdatastream/DataStream.hpp:341-368 | for any stages and any stream, a reachable state can be continued to completion if and only if no buffer is sent more blocks after its first EOP than its queue holds and two EOPs arrive at no sink |
| PipelineProgress.Deadlocks | include/cppdatastream/DataStream.hpp:349-351 | when a buffer is sent more than that and two EOPs arrive at no sink, every run can be continued to a state in which no thread can take a step, no sink has thrown and the run is not complete |
| PipelineProgress.Throws | include/cppdatastream/DataStream.hpp:426-441 | when no buffer is sent more than that and two EOPs arrive at a sink, every run can be continued to the moment at which a sink throws |
| PipelineProgress.EveryRunComesToAnEnd | include/cppdatastream/DataStream.hpp:255-368 | every run can be continued until nobody can take a step; it is then complete, which it is only if no buffer is sent more than that and two EOPs arrive at no sink, or has thrown, which it has only if two arrive at one, or is stuck, which it is only if a buffer is sent more |
| PipelineProgress.SecondEndThrows | include/cppdatastream/DataStream.hpp:428-433 | data, EOP into the stage that ends early, with a sink: no run completes, and every run can be continued to the throw |
| PipelineProgress.SpinsForever | include/cppdatastream/DataStream.hpp:349-351 | data, data, EOP into the stage that ends early, in front of a buffer of one: no run completes, and every run can be continued until it is stuck |
| PipelineProgress.BehavedFits | include/cppdatastream/DataStream.hpp:255-368 | no buffer is sent more than that whenever stages pass the end through and end early on errors only, and nothing is pushed after the first EOP |
| BufferQueues.RingBufferIsQueue | include/cppdatastream/DataStream.hpp:349-368 | every step of either thread on the ring buffer is a step of the bounded queue that a buffer of the pipeline has, or none: an element enters as an accepted offer, a failed call finds the offer refused, an element that leaves is the front of the queue |
| BufferQueues.DequeueIsTake | include/cppdatastream/DataStream.hpp:363-364 | the element that leaves is the block with which the next step of the buffer's thread enters the processing |
| Processors.Visitor.VisitData | include/cppdatastream/DataStream.hpp:426-441 | the sink's promise after a visit is that of the blocks shown so far, and the visit throws exactly when a sink whose promise is set is shown an EOP |
| Processors.Processor.constructor | include/cppdatastream/DataStream.hpp:238-290 | a new processor is a tree of one node with nothing connected and no error |
| Processors.Processor.ConnectVisitor | include/cppdatastream/DataStream.hpp:253 | appends a visitor that is not in the tree, with what it has been shown before, and changes nothing else |
| Processors.Processor.ConnectProcessor | include/cppdatastream/DataStream.hpp:250 | appends a processor with its subtree, none of it in the tree, and changes nothing else |
| Processors.Processor.PushData | include/cppdatastream/DataStream.hpp:255-283 | updated in place, the objects of the subtree show the tree after the push, up to the first sink that throws: latch, stage, visitors and connected processors in order; the latch is set afterwards exactly if it was set before or the answer has a status of type EopError, and with it set nothing but the block received changes |
| Processors.Processor.VisitAll | include/cppdatastream/DataStream.hpp:272-279 | every visitor up to the first that throws is shown the block once, the others are not, and the processors behind are untouched |
| Processors.Processor.PushOn | include/cppdatastream/DataStream.hpp:281-282 | every connected processor up to one that throws is pushed the block once, in its own subtree only, the others are not |
| Processors.Processor.RunBuffer | include/cppdatastream/DataStream.hpp:358-368 | the buffer's thread takes exactly the blocks up to the first with a status of any type, in the order in which they reach its queue, leaves the processor as after pushing these one by one, and without such a block goes on waiting |
| SimpleSources.SimpleSource.Stop | src/examples/Source.cpp:50-55 | stores the stop flag, 1 |
| SimpleSources.SimpleSource.Cancel | src/examples/Source.cpp:57-62 | stores the cancel flag, 2 |
| SimpleSources.SimpleSource.Load | src/examples/Source.cpp:75 | a load sees the last call made before it, of those in this run |
| SimpleSources.StatusFor | src/examples/Source.cpp:89-96 | the status is EopCancelled if the last call was cancel and EopSuccess otherwise, without a message; the unknown flag does not occur |
| SimpleSources.SimpleSource.PushBlocks | src/examples/Source.cpp:74-85 | whatever calls come between the loads of the flag, the loop pushes data blocks as long as no call has come, at most numBlocks |
| SimpleSources.SimpleSource.Run | src/examples/Source.cpp:71-98 | the run pushes these blocks and one EOP without data and message: EopCancelled exactly when there were calls before the load that follows the loop and the last of them was cancel, and EopSuccess otherwise |
| SimpleSources.EmissionUnique | src/examples/Source.cpp:71-98 | the calls alone determine what is pushed |
| SimpleSources.EmissionComplete | src/examples/Source.cpp:71-98 | data* EOP with at most numBlocks data blocks, fewer exactly if a call came before the last of them; EopCancelled exactly if the last call before the final load was cancel, and EopSuccess otherwise, without a message |
| SimpleSources.SourceResolvesSinks | src/examples/Source.cpp:71-98 | the source feeding a pipeline of any stages for which no buffer is sent more after its first EOP than its queue holds and two EOPs arrive at no sink, under any calls and any interleaving: the run can be completed, and then every sink is resolved once with the EOP that arrives at it, if one does |
| SimpleSources.SourceThrows | src/examples/Source.cpp:71-98 | if two EOPs arrive at a sink instead, no run completes and every run can be continued to the throw |
| SimpleSources.SourceResolvesOnce | src/examples/Source.cpp:71-98 | with stages that pass the end through and end early on errors only, what the source pushes always meets that condition, and every sink is resolved once, with the status that arrives on its path |
| Civil.ToDaysCounts | src/common/date.hpp:2365-2379 | to_days counts the days of the Gregorian rule: whole years, whole months and days from 1970-01-01, for every year |
| Civil.FromDaysOfToDays | src/common/date.hpp:2441-2457 | from_days undoes to_days on every ok date |
| Civil.ToDaysOfFromDays | src/common/date.hpp:2441-2457 | on every day number of the years -32767 to 32767 from_days gives an ok date, and to_days returns the number |
| Civil.OkInRange | src/common/date.hpp:2388-2393 | the number of every ok date lies in that range |
| Civil.ToDaysBounds | src/common/date.hpp:2371-2378 | year of era, day of year and day of era stay in their commented bounds, and no int overflows |
| Civil.FromDaysBounds | src/common/date.hpp:2447-2451 | the day of era stays in its bounds and no int overflows on the whole range |
| Civil.DayOfEraBounds | src/common/date.hpp:2449-2455 | year of era, day of year, month position and day stay in their commented bounds for every day of an era, and the unsigned differences are not negative |
| Civil.ToDaysIncreasing | src/common/date.hpp:2405-2412 | to_days is strictly increasing in the lexicographic order of dates, both ways |
| Civil.NextDayIsNext | src/common/date.hpp:2365-2379 | the next civil day has the next number |
| Civil.MonthLength | src/common/date.hpp:2211-2226 | months begin exactly year_month_day_last::day days apart |
| WeekDates.WeekdayIsMod | src/common/date.hpp:1590-1594 | the unsigned computation is the count of days since a Sunday modulo 7 for every int, negative ones included |
| WeekDates.WdMinusIsMod | src/common/date.hpp:1656-1662 | the difference of weekdays is the number of days modulo 7 |
| WeekDates.NthWeekday | src/common/date.hpp:2576-2580 | an nth-weekday date converts to a day on its weekday |
| WeekDates.NthRoundTrip | src/common/date.hpp:2566-2580 | every day number of the range comes back from its nth-weekday date, which is ok |
| WeekDates.NthOkIffRoundTrip | src/common/date.hpp:2555-2580 | for an ok year and month and any weekday and index that the fields hold, a value is ok exactly when converting it to days and back returns it |
| WeekDates.LastIsLatest | src/common/date.hpp:2689-2694 | the last weekday of a month is on that weekday, in the last week of the month, and no day of the month on that weekday is later |
| WeekNumbers.PrintIsoWeek | src/common/date.hpp:4414-4425 | the code of %V, which may step its year and start back once, computes the year and week of the standard, which feed back to the same day, on every day from the third of January of the year -32767 on |
| WeekNumbers.PrintWeek | src/common/date.hpp:4484-4497 | the code of %U and %W computes a number in 0..53 that is (yday + 7 - days since the week's first day) / 7, as strftime of the C standard has it, and feeds back through the parser's formula to the same day |
| WeekNumbers.IsoStartIs | src/common/date.hpp:4414-4421 | the start of the week-based year, from the last Thursday of December before, is the Monday of the week of the first Thursday, across the 16-bit wrap at its upper end |
| WeekNumbers.IsoYearIs | src/common/date.hpp:4033-4037 | %G is the year of the week's Thursday, reduced to 16 bits |
| WeekNumbers.IsoExact | src/common/date.hpp:4414-4425 | the printed year and week agree with section 4.1.4 of ISO 8601:2004, with the week in 1..53, and feed back through the parser's formula to the same day, if and only if the day is not one of the first two of the year -32767 |
| WeekNumbers.IsoFails | src/common/date.hpp:4414-4425 | on the first of January of the year -32767, an ok date, the week number is below 1 |
| WeekNumbers.IsoParsed | src/common/date.hpp:6052-6054 | a week date with any number for its week, parsed and printed again, is the same exactly when its year has that week; the numbers below 1 never are |
| WeekNumbers.WeekRoundTrip | src/common/date.hpp:6069-6088 | the year with %U or %W, in 0..53, and the weekday feeds back to the same day, week 00 included |
| WeekNumbers.WeekNumberAgrees | src/common/date.hpp:4375-4385 | %U and %W are (yday + 7 - days since the week's first day) / 7, as strftime of the C standard has it |
| WeekLaws.WeekdaysFollow | src/common/date.hpp:1590-1594 | 1970-01-01 is day 0 and a Thursday, 4, and each day has the weekday after that of the day before |
| WeekLaws.NthDay | src/common/date.hpp:2576-2580 | an ok nth-weekday date converts to the day on that weekday among the nth seven days of the month |
| WeekLaws.FourthOfJanuary | src/common/date.hpp:4414-4425 | the fourth of January of every year lies in week 01 of that year |
| WeekLaws.WeeksBeginOnMonday | src/common/date.hpp:4414-4425 | every day but a Monday has the printed year and week of the day before |
| WeekLaws.WeekAfter | src/common/date.hpp:4414-4425 | seven days on, the number is one more, or the year is one more and the number 1 |
| WeekLaws.SundayWeek | src/common/date.hpp:4375-4387 | the code of %U prints (yday + 7 - wday) / 7, with Sunday as weekday 0 |
| WeekLaws.MondayWeek | src/common/date.hpp:4484-4497 | the code of %W prints (yday + 7 - (wday + 6) % 7) / 7 |
| ConfigSections.Common | src/common/CLI11.hpp:10261-10268 | the number of shared names: all before are equal and the next differ |
| ConfigSections.ConfigReader.constructor | src/common/CLI11.hpp:10310-10314 | reading starts with no output in the default section |
| ConfigSections.ConfigReader.CloseWhileAtLeast | src/common/CLI11.hpp:10254-10258 | the loop closes section after section until the one closed last has fewer than the given names |
| ConfigSections.ConfigReader.CloseToShared | src/common/CLI11.hpp:10269-10276 | the last close is taken back when its section is an ancestor of the new one; else sections are closed down to the shared names |
| ConfigSections.ConfigReader.CommonLength | src/common/CLI11.hpp:10261-10268 | the loop counts the names that agree, up to the first that does not |
| ConfigSections.ConfigReader.OpenAncestors | src/common/CLI11.hpp:10277-10288 | the loop opens the ancestors that are not open, outermost first |
| ConfigSections.ConfigReader.PushParent | src/common/CLI11.hpp:10255-10257 | one copy of the last close, without its last name |
| ConfigSections.ConfigReader.CheckParentSegments | src/common/CLI11.hpp:10248-10295 | after the close of a section, the output closes exactly the sections that are not shared, innermost first, and opens exactly the new ones, outermost first; otherwise it opens all of them |
| ConfigSections.ConfigReader.CloseSection | src/common/CLI11.hpp:10350-10355 | a header closes the current section unless it is the default one |
| ConfigSections.ConfigReader.Read | src/common/CLI11.hpp:10349-10524 | a header, default header or entry changes output and current section as the specification says, merging an entry into the one before when name and parents agree |
| ConfigSections.ConfigReader.Finish | src/common/CLI11.hpp:10526-10536 | the end of the file closes the current section and all its parents |
| ConfigSections.FromConfig | src/common/CLI11.hpp:10307-10537 | the output for a whole file is that of its lines one after the other |
| ConfigNesting.EnteredNests | src/common/CLI11.hpp:10248-10295 | a header after a closed section leaves exactly the prefixes of its own path open, properly nested |
| ConfigNesting.SharedStayOpen | src/common/CLI11.hpp:10269-10281 | between the two sections no event opens or closes a shared ancestor |
| ConfigNesting.OpenAfterHeader | src/common/CLI11.hpp:10349-10374 | in a whole file, exactly the prefixes of the current path are open after each header, unless an entry came before in the default section, returned to from a section with parents |
| ConfigNesting.WellBracketed | src/common/CLI11.hpp:10307-10537 | the events of a file are properly nested and leave nothing open if and only if the file never has an entry, nor its end, in the default section after returning to it from a section with parents |
| ConfigNesting.NamedSectionsAreBalanced | src/common/CLI11.hpp:10349-10374 | every file without a default header is well bracketed |
| ConfigNesting.DefaultLeavesOpen | src/common/CLI11.hpp:10350-10364 | a file of the headers a.b and default leaves a open |
| ConfigNesting.ValuesKept | src/common/CLI11.hpp:10503-10524 | the output carries every value of every entry whose section and parents are at most maximumLayers names together, under its section, once and in order |
| ConfigEntries.SectionOfLine | src/common/CLI11.hpp:10349-10374 | a line belongs to the section of the last header before it, to none after the default header or before any |
| ConfigEntries.ValuesOfLine | src/common/CLI11.hpp:10503-10524 | the values of line i come right behind those of the lines before it, under its section and own parents, if it is an entry of at most maximumLayers names; otherwise it has none in the output |
| ConfigEntries.EntryIsLast | src/common/CLI11.hpp:10518-10524 | such an entry becomes the last item, or its inputs are added to the last item when that has its parents and name, and all other output stays |
| ConfigEntries.DeepEntrySkipped | src/common/CLI11.hpp:10503-10505 | a deeper entry changes nothing |
| ConfigEntries.EntryInSection | src/common/CLI11.hpp:10349-10524 | the entry of a named section is put out under the section's name while exactly the prefixes of the section's path are open |
| ConfigEntries.MergedOnce | src/common/CLI11.hpp:10518-10524 | no two neighbouring items of the output have the same parents and name |
| Escapes.AddEscapedCharacters | src/common/CLI11.hpp:865-878 | the loop builds the escaped string |
| Escapes.RemoveEscapedCharacters | src/common/CLI11.hpp:920-978 | the loop gives the unescaped string, and none exactly where the source throws |
| Escapes.ReadEscape | src/common/CLI11.hpp:925-972 | one escape, with its length: the letters, four and eight digits, zero, and the errors |
| Escapes.ReadHex | src/common/CLI11.hpp:938-947 | the loop over the place values computes the number that the digits denote, or reports a wrong digit |
| Escapes.UnescapedOfEscaped | src/common/CLI11.hpp:865-978 | removing escapes restores every string that was escaped |
| Escapes.EscapedIsSafe | src/common/CLI11.hpp:865-878 | an escaped string has none of the control characters that have a code, no quote without a backslash before it, and is the string itself when nothing in it can be escaped |
| Escapes.NothingToEscape | src/common/CLI11.hpp:1200-1204 | a string without a backslash needs no removal |
| Escapes.CodepointIsUtf8 | src/common/CLI11.hpp:896-918 | a code point becomes bytes that a UTF-8 decoder reads back to it; surrogates alone fail, and numbers beyond add nothing |
| EscapeLaws.EscapedAt | src/common/CLI11.hpp:855-878 | backspace, tab, newline, form feed, carriage return, quote and backslash are written as a backslash and b, t, n, f, r, quote and backslash, wherever they stand, and any other character as it is |
| EscapeLaws.LetterRead | src/common/CLI11.hpp:925-972 | behind any text without a backslash, a backslash and b, t, n, f, r, quote, backslash or 0 read as backspace, tab, newline, form feed, carriage return, quote, backslash or the zero byte |
| EscapeLaws.OtherFails | src/common/CLI11.hpp:925-972 | a backslash at the end or before any character but those, u and U makes the reading fail |
| EscapeLaws.DigitIs | src/common/CLI11.hpp:880-892 | each hexadecimal digit, small or capital, has its value |
| EscapeLaws.NotADigit | src/common/CLI11.hpp:880-892 | no other character counts as a digit |
| EscapeLaws.UnicodeRead | src/common/CLI11.hpp:933-951 | u and four digits read as the bytes of the code point whose place values the digits are, and a surrogate makes the reading fail |
| EscapeLaws.LongUnicodeRead | src/common/CLI11.hpp:952-968 | U and eight digits likewise |
| EscapeLaws.UnicodeFails | src/common/CLI11.hpp:933-968 | u with fewer than four, or U with fewer than eight, hexadecimal digits behind it makes the reading fail |
| BinaryStrings.BinaryEscapeString | src/common/CLI11.hpp:1098-1130 | the loops escape what does not print, and replace quotes with the length that the source gives, until none is left |
| BinaryStrings.ExtractBinaryString | src/common/CLI11.hpp:1140-1177 | the loop decodes the body of a binary string, never reads past its end, and no escape reaches into the closing |
| BinaryStrings.ReplacedExact | src/common/CLI11.hpp:1118-1123 | the loop over the quotes escapes every quote and keeps all else if only the first and the last character are quotes; otherwise its result is shorter than that |
| BinaryStrings.DecodedExact | src/common/CLI11.hpp:1140-1177 | a text with everything escaped that must be decodes to itself exactly when it holds no backslash, x and two hexadecimal digits |
| BinaryStrings.BinaryExact | src/common/CLI11.hpp:1098-1177 | what the two loops make of any text decodes to the text exactly when no quote stands inside it, other than as its first or last character, and it holds no such digits |
| Quoting.BinaryRoundTrip | src/common/CLI11.hpp:1098-1177 | a text that does not print reads back exactly under the same condition |
| Quoting.BinaryLosesText | src/common/CLI11.hpp:1119-1122 | the text a'b with a character that does not print comes back without the b |
| Quoting.ConvertArgForIni | src/common/CLI11.hpp:10136-10193 | the branches give the text that is written for a value |
| Quoting.ProcessQuotedString | src/common/CLI11.hpp:1191-1211 | the branches give the value that is read: plain, unquoted or an error |
| Quoting.RemoveOuter | src/common/CLI11.hpp:735-743 | both quotes go when both are there, else nothing |
| Quoting.RoundTrip | src/common/CLI11.hpp:10136-10193 | what is written for a value reads back as that value: for every string of printable characters, newlines and tabs exactly when it is not written over several lines, and for every other string exactly when no quote stands inside it, other than as its first or last character, and it holds no backslash, x and two hexadecimal digits |
| QuotingLaws.BareIs | src/common/CLI11.hpp:10142-10182 | the texts written without quotes are true, false, nan and inf, numbers of the characters 0 to 9, point, minus, plus, e and E, and 0x, 0o or 0b with digits of that base |
| QuotingLaws.WrittenBinary | src/common/CLI11.hpp:10157-10185 | any other text with a character outside 32 to 126, newline and tab excepted in longer ones, is written as a binary string |
| QuotingLaws.WrittenSingle | src/common/CLI11.hpp:10156-10163 | one character that prints is written between single quotes, and a single quote between double ones |
| QuotingLaws.WrittenQuoted | src/common/CLI11.hpp:10186-10192 | other text goes between double quotes as it is when no tab, newline, quote and backslash is in it; with one it is escaped, or, with more than 100 characters and multiple lines allowed, put between triple single quotes |
| QuotingLaws.BinaryCharAt | src/common/CLI11.hpp:1098-1114 | in a binary string the characters from 32 to 126 stay, and any other becomes a backslash, an x and its two small hexadecimal digits |
| QuotingLaws.FirstQuoteReplaced | src/common/CLI11.hpp:1118-1123 | one pass of the loop over the quotes puts an escape for the first quote and takes out, behind it, as many characters as stand before it |
| QuotingLaws.BacktickReads | src/common/CLI11.hpp:1206-1209 | whatever stands between backtick quotes is read as it stands |
| QuotingLaws.LiteralQuoteReads | src/common/CLI11.hpp:1206-1209 | whatever stands between single quotes likewise, unless it is a binary string |
| QuotingLaws.BinaryStringReads | src/common/CLI11.hpp:1132-1177 | a binary string is decoded, with single quotes around it or without |
| QuotingLaws.BinaryEscapeReads | src/common/CLI11.hpp:1160-1172 | in it a backslash, x or X, and two hexadecimal digits, small or capital, are the byte that they denote |
| QuotingLaws.OtherBackslashStays | src/common/CLI11.hpp:1160-1174 | a backslash that does not begin such an escape stays |
| QuotingLaws.UnquotedReads | src/common/CLI11.hpp:1191-1211 | text that does not begin and end with the same quote, and is no binary string, is left alone |
| QuotingLaws.QuotedUnicodeReads | src/common/CLI11.hpp:1200-1204 | between double quotes u and four digits, small or capital, read as the bytes of their code point |

## Left out

- Weak memory: orderings, fences and sanitizer annotations; atomic operations are sequentially consistent steps.
- The platform semaphores: the kernel semaphore is a counter whose waits may fail.
- Move, swap, raw allocation and alignment of queues, and elements that throw.
- Capacity 0 beyond the mask it is rounded to, several producers or consumers, signals of more than one.
- The composition of ring buffers and pipeline in one machine: BufferQueues ties each step of a ring buffer to the queue of one buffer, but the time between an element's entry and the return of the call is not in the tree.
- What other threads still do between the exception of a sink and the end of the program.
- Threads of the processor objects: the methods of Processors.Processor run without interference; all interleavings are proved on the transition system, whose trees are values without aliasing.
- Processors.Processor.RunBuffer: the queue between the two threads is the order in which blocks arrive; its bound and the waiting on both sides are in module Pipelines.
- Processors.Processor.ConnectVisitor: a visitor that is in the tree already is left out, because the objects form a tree.
- Processors.Processor.ConnectProcessor: a processor that shares objects with the tree is left out, because the objects form a tree.
- Cyclic graphs of processors and pushing from several threads.
- Logging, demangling, the throughput monitor, signal handlers, formatting of sizes, and `isEmpty` of a block, which is true when data is there.
- The other parts of date.hpp: format loops, locales, time zones, durations, and the rest of its date types.
- ConfigSections.ConfigReader.Read: a line comes split up, as in FromConfig, and the restriction to one configured section is left out.
- ConfigSections.FromConfig: lines come split up, so trimming, comments, values over several lines, arrays, splitting of names and removal of their quotes are not modelled, nor is the restriction to one configured section.
- Quoting.RoundTrip: text written over several lines is read back by from_config, not by process_quoted_string, and that reading is left out.
- Quote characters other than the defaults; the conversion of a text to a double is a parameter.
- The rest of CLI11 and the semantic version ranges.
