# Verified model of kbms

kbms is an HTTP service framework in C++: requests arrive on an IO thread, a pool of workers hands
them to registered callbacks, and replies travel back to the IO thread through a socket pair.  Beside
that pipeline it keeps two structures up to date without locks (a registry of live services and a
configuration text), and it ships the RPC code generator of libevent.  This project models these parts
in Dafny and proves what they promise, over every interleaving, every run and every input.

`dafny verify dfyconfig.toml` checks the whole project.  Dafny's automatic induction is switched off for every lemma,
so each induction is the one its body spells out.

| files | what they model |
|---|---|
| `Task`, `ThreadPool*` | tasks and the worker pool: a step machine over the mutex, the condition variable, the queue and each worker's place in its loop; the wake-up invariant; order, and exactly-once with its exact condition; shutdown; the code itself as a class whose methods are runs of the machine |
| `IoThread*` | submission of functors, the byte pipe and the batch loop, as a machine and as a class |
| `Service*` | the two machines composed, routing and completion, accounting of replies, quiescence; what the actions of a run say of its state |
| `RpcMessage`, `RpcAcceptance`, `RpcRoundTrip`, `RpcCanonical`, `RpcPlaces`, `RpcAssign`, `RpcArray`, `RpcCode`, `RpcWire` | what the C emitted for any schema does: new, clear, complete, marshal, unmarshal, assign, array growth; as functions and as the emitted statements |
| `RpcFrontEnd`, `RpcGenerator` | the generator's entry and struct parsing against a written-out grammar, and the end-to-end result for every accepted file |
| `Registry*` | parsing a registry reply, its double-buffered publication to concurrent readers, and which reply a reader is answered from |
| `Config*` | the configuration pointer with its grace period, and which response a reader is given |
| `Helpers` | header, body and upload callbacks of the HTTP client |

How the concurrent parts are modelled: one step of a machine is one statement or critical section of the
source between two points where other threads can get in; a run is any sequence of enabled steps.  A
wake-up may be spurious, a body may throw, and any number of threads may add, submit or read.  Every
invariant is proved for one step, lifted to runs by induction, and the results are read off it.

Things found on the way:

- A task added twice is run twice, since `Run` leaves a task whose body is still running, or has thrown, in the
  state EXECUTING.  Exactly-once holds of the histories without a repetition and of no others
  (`PoolExactlyOnce.ExactlyOnceExact`); the service never adds a task twice.
- The emitted `add` of a string array takes a null pointer, the emitted `complete` does not look at it, and the emitted
  `marshal` dereferences it.  So a complete message can be marshalled, and round-trips, exactly when no string array
  in it holds a null element (`RpcRoundTrip.RoundTrip`, `RpcRoundTrip.NullAddedUnsendable`).
- The emitted `assign` of a struct clears its target before it marshals the source.  A source that contains the target
  can lose it, one that is the target can lose its fields, one inside the target can be freed before it is read.
  Where the copy is exact is `RpcAssign.AssignCopies`; `RpcAssign.NodeLosesNext` and `RpcAssign.UnlinkDangles` are
  inputs on which it is not, and `RpcAssign.SelfAssignExact` is the case of a field assigned to itself.
- Storage of an array stays within twice its length exactly as long as no element fails after the storage has
  grown for it with nothing or a slot to spare (`RpcArray.GrowthBounds`, `RpcArray.LostElementBreaksBound`).
- `marshal` does not check completeness: an incomplete message without null pointers is sent, and the receiver sees
  its required fields as set (`RpcRoundTrip.CellsRoundTrip`).
- The two-second update gap and the three-second grace period are exact bounds: readers that take a given time are all
  served correctly if and only if it is shorter (`RegistryPublish.GapIsExact`, `ConfigModel.GraceIsExact`).
- The comment at `src/config/config_loader.cc:86` says an update by hand fails while one is running; the test at
  line 87 does the opposite.

## Model

| member | source | states |
|---|---|---|
| Tasks.TaskObject.WithExpiry | src/concurrency/task.cc:13-24 | a task is subject to a timeout iff it has an expiry closure and a positive expiration; its deadline is now plus the expiration, none for zero |
| Tasks.TaskObject.Plain | src/concurrency/task.cc:26-29 | a task from a body alone is waiting, without timeout |
| Tasks.TaskObject.Run | src/concurrency/task.cc:35-40 | the body is entered exactly when EXECUTING, and completes the task unless it throws |
| Tasks.TaskObject.ExpireRun | src/concurrency/task.cc:42-47 | the expiry closure is entered exactly when TIMEDOUT, and completes the task |
| PoolCode.ThreadPool.constructor | src/concurrency/thread_pool.cc:105-113 | every worker starts outside the mutex, the pool running and empty |
| PoolCode.ThreadPool.Notify | src/monitor/monitor_thread.h:43-50 | some blocked thread becomes notified if there is any, otherwise nothing changes |
| PoolCode.ThreadPool.Push | src/concurrency/thread_pool.cc:24-25 | is two machine steps: locked, and the task at the back of the queue |
| PoolCode.ThreadPool.WakeOne | src/concurrency/thread_pool.cc:26-28 | is one machine step: a blocked worker is notified if the idle count allows and there is one |
| PoolCode.ThreadPool.Announce | src/concurrency/thread_pool.cc:96-97 | is two machine steps: locked, and the state is STOP |
| PoolCode.ThreadPool.AddTask | src/concurrency/thread_pool.cc:23-29 | is a run of the machine that appends one task and wakes at most one blocked worker |
| PoolCode.ThreadPool.Stop | src/concurrency/thread_pool.cc:95-99 | is a run of the machine after which the state is STOP and nobody is left blocked |
| PoolCode.ThreadPool.TestState | src/concurrency/thread_pool.cc:43-44 | is one machine step of that worker: the flag read is whether the pool is running |
| PoolCode.ThreadPool.PassQueueTest | src/concurrency/thread_pool.cc:45 | is one machine step: the wait is skipped only if stopping or work is there |
| PoolCode.ThreadPool.Recheck | src/concurrency/thread_pool.cc:47-48 | is one machine step: back from the wait the state is read again |
| PoolCode.ThreadPool.StopIdling | src/concurrency/thread_pool.cc:49 | is one machine step: one fewer idle |
| PoolCode.ThreadPool.CountIdle | src/concurrency/thread_pool.cc:46 | is one machine step: one more idle |
| PoolCode.ThreadPool.Block | src/concurrency/thread_pool.cc:47 | is one machine step: blocked, with the mutex released |
| PoolCode.ThreadPool.TakeFront | src/concurrency/thread_pool.cc:51-63 | is one machine step: the front task is dequeued and judged against the clock |
| PoolCode.ThreadPool.Dispatch | src/concurrency/thread_pool.cc:64-80 | is one machine step: which closure the worker leaves the mutex for, and that a task in neither state is dropped |
| PoolCode.ThreadPool.Leave | src/concurrency/thread_pool.cc:81-83 | is one machine step: the worker ends and the guard releases the mutex |
| PoolCode.ThreadPool.ReachQueueTest | src/concurrency/thread_pool.cc:43-50 | whichever way a worker comes to the queue test, it has just read the state |
| PoolCode.ThreadPool.Turn | src/concurrency/thread_pool.cc:43-82 | one turn either gives up the mutex or consumes a task |
| PoolCode.ThreadPool.HoldMutex | src/concurrency/thread_pool.cc:43-82 | from getting the mutex to giving it up is a run of that worker alone; it blocks only on an empty queue of a running pool and ends exactly when the pool is stopped |
| PoolCode.ThreadPool.Enter | src/concurrency/thread_pool.cc:67-69 | is one machine step: the worker is inside the closure the task was judged for |
| PoolCode.ThreadPool.Finish | src/concurrency/thread_pool.cc:69-72 | is one machine step: the worker is done with the task, whose record is what its Run or ExpireRun left |
| PoolCode.ThreadPool.RunTask | src/concurrency/thread_pool.cc:67-72 | is a run of that worker: the body is entered iff the task is EXECUTING, the record ends as Task::Run leaves it, and a throw goes no further |
| PoolCode.ThreadPool.ExpireTask | src/concurrency/thread_pool.cc:76-77 | is a run of that worker: the expiry closure is entered iff the task is TIMEDOUT, the record ends as Task::ExpireRun leaves it |
| PoolCode.ThreadPool.Relock | src/concurrency/thread_pool.cc:74-78 | is one machine step: the worker owns the mutex again at the top of its loop |
| PoolWakeup.InitInv | src/concurrency/thread_pool.cc:105-113 | the pool invariant holds initially |
| PoolWakeup.StepInv | src/concurrency/thread_pool.cc:23-99 | every step of every thread, including spurious wake-ups and throwing bodies, keeps the pool invariant |
| PoolWakeup.ReachableInv | src/concurrency/thread_pool.cc:23-99 | the invariant holds after every run, for any number of workers |
| PoolWakeup.StepConserves | src/concurrency/thread_pool.cc:23-50 | work conservation is kept by every step: while anybody sleeps, queued tasks are covered by notified workers and the owner of the mutex |
| PoolWakeup.StepIdle | src/concurrency/thread_pool.cc:26-50 | every step keeps the idle count equal to the workers inside the wait, the owner included |
| PoolWakeup.StepStopHeard | src/concurrency/thread_pool.cc:95-99 | after notify-all nobody is blocked, and every step keeps that |
| PoolHistory.StepFifo | src/concurrency/thread_pool.cc:25-55 | every step keeps the enqueue history equal to the dequeue history and the queue |
| PoolHistory.StepOnce | src/concurrency/thread_pool.cc:51-80 | every step keeps that a dequeued task has one owner, is started by it alone and never restarted, and goes the way it was judged |
| PoolHistory.RunOnce | src/concurrency/thread_pool.cc:51-80 | so after every run in which no task was added twice |
| PoolTheorems.NoLostWakeup | src/concurrency/thread_pool.cc:23-50 | running, with the mutex free and a worker blocked, the queue is no longer than the number of notified workers yet to come back |
| PoolTheorems.IdleCounterExact | src/concurrency/thread_pool.cc:26-50 | with the mutex free the idle count is the number of workers inside the wait; the adder's test of it is positive iff there is one |
| PoolTheorems.MutualExclusion | src/concurrency/thread_pool.cc:38-83 | at most one worker is at a place that needs the mutex; the pool keeps its size |
| PoolTheorems.RestMeansDrained | src/concurrency/thread_pool.cc:45-63 | a running pool in which no worker can move has an empty queue |
| PoolTheorems.FifoOrder | src/concurrency/thread_pool.cc:25-55 | the tasks ever enqueued are the tasks dequeued, in order, followed by the queue |
| PoolTheorems.AddedInOrder | src/concurrency/thread_pool.cc:23-55 | after every run the tasks its adders brought are, in order, those dequeued, the queue and the one about to be pushed |
| PoolTheorems.ExactlyOnce | src/concurrency/thread_pool.cc:51-80 | with no task added twice, a dequeued task has one owner, and its closures are entered exactly once in all, even if the body throws |
| PoolTheorems.TimeoutDiscipline | src/concurrency/thread_pool.cc:57-79 | the closure entered is the expiry closure iff the task is timed and its deadline was strictly before the time of its dequeue |
| PoolExactlyOnce.ExactlyOnceExact | src/concurrency/thread_pool.cc:57-69 | for every history of added tasks: no run with that history enters a task twice, whatever interleaves and throws, iff the history has no repetition |
| PoolExactlyOnce.EveryEntryCanRun | src/concurrency/thread_pool.cc:51-74 | for every history some run enters a body once for each of its entries |
| PoolExactlyOnce.AddedTwiceRunsTwice | src/concurrency/thread_pool.cc:57-69 | so any task added twice can be run twice |
| PoolExactlyOnce.AddedTwiceRunsTogether | src/concurrency/thread_pool.cc:64-69 | and with two workers be running twice at a time |
| PoolTheorems.StopReachesEveryone | src/concurrency/thread_pool.cc:95-99 | once notify-all has been called after a stop, no worker is blocked |
| PoolTheorems.StoppingStep | src/concurrency/thread_pool.cc:41-99 | no step of a stopping pool dequeues or blocks, and each worker step lowers the measure |
| PoolTheorems.ShutdownBounded | src/concurrency/thread_pool.cc:41-99 | from then on nothing is dequeued, nobody blocks, and worker steps are bounded by a measure, whoever interferes |
| PoolTheorems.ShutdownCompletes | src/concurrency/thread_pool.cc:41-83 | a stopping pool in which no worker can move has only exited workers |
| IoCode.IoThread.EventNotify | src/monitor/event_monitor.cc:55-61 | one more byte in the pipe unless it is full |
| IoCode.IoThread.EventHandler | src/monitor/event_monitor.cc:46-53 | is a run of the IO thread alone whose effect is one firing: at most 24 bytes read, everything pending executed |
| IoCode.IoThread.TakeAll | src/network/io_thread.cc:40-44 | is a run of the critical section: the pending functors become the batch |
| IoCode.IoThread.RunOne | src/network/io_thread.cc:46-49 | is a run that executes the next functor and counts it off |
| IoCode.IoThread.ExecuteTask | src/network/io_thread.cc:38-51 | is a run of the IO thread that executes all pending functors in order and counts each off |
| IoCode.IoThread.Push | src/network/io_thread.cc:54-55 | is two machine steps: locked, and the functor at the back |
| IoCode.IoThread.CountAndNotify | src/network/io_thread.cc:56-58 | is three machine steps: counted, announced, unlocked |
| IoCode.IoThread.Submit | src/network/io_thread.cc:53-58 | is a run that appends the functor, counts it and leaves the pipe nonempty |
| IoModel.StepInv | src/network/io_thread.cc:38-58 | every step of the IO thread and of any submitter keeps the IO invariant |
| IoModel.ReachableInv | src/network/io_thread.cc:38-58 | the IO invariant holds after every run |
| IoModel.DrainBatch | src/network/io_thread.cc:46-49 | the batch loop is a run that executes the whole batch in order |
| IoModel.NoStrandedFunctor | src/network/io_thread.cc:38-58 | with the lock free, a pending functor implies a byte in the pipe or an IO thread between read and swap, whatever sends failed and however bytes were merged |
| IoModel.OrderAndCount | src/network/io_thread.cc:43-57 | executed, then the batch, then the pending functors are the submission history; the counter is above its start by the number unfinished |
| IoModel.SubmittedInOrder | src/network/io_thread.cc:43-57 | after every run the functors its submitters brought are, in order, those executed, the batch, those pending and the one about to be pushed |
| IoModel.RestMeansExecuted | src/network/io_thread.cc:38-58 | the IO thread is idle only when all that was submitted has been executed |
| IoModel.FireIsRun | src/monitor/event_monitor.cc:46-53 | one firing of the handler is a run of the IO thread's own steps |
| IoModel.DrainsInCeiling | src/monitor/event_monitor.cc:46-53 | once submits stop, exactly (bytes + 23) / 24 firings empty the pipe and execute everything |
| ServiceCode.ServiceObject.RegisterHandler | src/service/service.cc:59-61 | the callback is kept for its path, others stay; the maps keep to the history of registrations |
| ServiceCode.ServiceObject.RegisterDefaultHandler | src/service/service.cc:63-65 | extends the history of registrations and keeps to it |
| ServiceCode.ServiceObject.RegisterTimeoutHandler | src/service/service.cc:67-69 | extends the history of registrations and keeps to it |
| ServiceCode.ServiceObject.CoreHandleRequest | src/service/service.cc:30-57 | is a run of the pool that creates one task with the service-wide expiration and enqueues it; the task keeps the path asked for |
| ServiceCode.ServiceObject.TaskFun | src/service/service.cc:38-47 | whatever was registered in whatever order, the body of a task asks the callback registered last for the path its request asked for, or else the last default one; it throws iff the last callback for that path is empty |
| ServiceCode.ServiceObject.ExpireFun | src/service/service.cc:48-53 | the expiry closure asks the timeout callback registered last, if any |
| ServiceHistory.RoutedByRegistration | src/service/service.cc:30-69 | in every run the r-th request to arrive is handed to the callback that the registrations of the run name for the path of its arrival, its expiry to the last timeout callback |
| ServiceTheorems.RoutesAreRegistrations | src/service/service.cc:59-69 | the maps of the service are those the registrations of the run leave |
| ServiceHistory.UrlsAreArrivals | src/service/service.cc:30-41 | after every run the paths kept are those of its arrivals, in order |
| ServiceHistory.CallsAreCompletions | src/service/service.cc:71-85 | after every run the completion calls recorded are its completions, each with its request and body, in order |
| ServiceHistory.OutcomesAreBuffers | src/service/service.cc:71-85 | and the outcomes recorded say of each executed functor whether there was a buffer for its reply |
| ServiceHistory.DeadlinesFromArrivals | src/concurrency/task.cc:13-24 | after every run the task of the r-th arrival is due the expiration after the time of that arrival, and never without an expiration |
| ServiceHistory.PickMoment | src/concurrency/thread_pool.cc:51-63 | every recorded dequeue is a step of the run that took the front of the queue, at the time recorded |
| ServiceHistory.ExpiredByTheClock | src/concurrency/thread_pool.cc:57-79 | in every run the expiry closure of a request is entered instead of its body iff there is an expiration and more than that had passed since its arrival when it was dequeued |
| ServiceCode.ServiceObject.Complete | src/service/service.cc:71-85 | is a run of the IO machine that submits one reply functor |
| ServiceInvariants.StepParts | src/service/service.cc:30-85 | each component of the running service, seen alone, is a run of its own machine |
| ServiceInvariants.StepAdmission | src/service/service.cc:54-56 | requests enter the queue once each, in arrival order |
| ServiceInvariants.StepDeadlines | src/service/service.cc:55 | with one expiration and a monotone clock, deadlines follow arrival order |
| ServiceInvariants.StepCalls | src/service/service.cc:38-53 | completion calls come only from requests given to a callback, and are the IO thread's submission history |
| ServiceInvariants.ReachableInv | src/service/service.cc:30-85 | these and the record of completion calls hold after every run |
| ServiceTheorems.ExpiredFormPrefix | src/service/service.cc:55-56 | the expired requests in the queue always form a prefix of it |
| ServiceTheorems.CallsAccounted | src/service/service.cc:71-85 | at every moment each completion call is executed, in the batch, pending or about to be pushed, in call order; a request without a callback has none |
| ServiceTheorems.EveryRequestDispatched | src/service/service.cc:38-56 | at rest every request has entered exactly one closure, the expiry one iff its deadline had passed at its dequeue |
| ServiceTheorems.RepliesMatchCalls | src/service/service.cc:30-85 | at rest a request has as many replies as its callback invoked the completion function, and none exactly when nobody could be asked or nobody called |
| ServiceHistory.RepliesAreCompletions | src/service/service.cc:71-85 | at rest the IO thread has executed exactly the completions of the run, with their requests and bodies, in order; a reply goes out iff there was a buffer |
| ServiceRest.InternalLowers | src/service/service.cc:30-85 | every internal step of pool and IO thread lowers one measure of the whole service |
| ServiceRest.ComesToRest | src/service/service.cc:30-85 | so a run of internal steps is no longer than the measure |
| ServiceRest.SettleFrom | src/service/service.cc:30-85 | any run of internal steps can be continued to rest without new requests or calls |
| ServiceRest.EverythingGetsAnswered | src/service/service.cc:30-85 | from every reachable running state the service can finish by itself, having dispatched every request and executed every completion call |
| RpcCode.MessageObject.Clear | thirdparty/libevent-2.1.11/bin/event_rpcgen.py:202-210 | the emitted clear, field by field, is the clear function |
| RpcCode.MessageObject.Complete | thirdparty/libevent-2.1.11/bin/event_rpcgen.py:286-305 | the emitted complete returns 0 exactly on complete messages, nested ones included |
| RpcCode.MessageObject.IncompleteNested | thirdparty/libevent-2.1.11/bin/event_rpcgen.py:881-888 | a set struct, or any element of an array of them, is checked in turn |
| RpcCode.MessageObject.MarshalTo | thirdparty/libevent-2.1.11/bin/event_rpcgen.py:224-243 | given no null pointer to send, the emitted marshal appends exactly the message's records to the buffer |
| RpcCode.MessageObject.MarshalField | thirdparty/libevent-2.1.11/bin/event_rpcgen.py:1228-1243 | an array is sent element by element under one tag, an unset optional field not at all |
| RpcCode.MessageObject.PayloadOf | thirdparty/libevent-2.1.11/bin/event_rpcgen.py:332-343 | a nested struct's payload is its own marshalled form |
| RpcCode.MessageObject.UnmarshalFrom | thirdparty/libevent-2.1.11/bin/event_rpcgen.py:246-284 | the emitted unmarshal, with its early returns, succeeds exactly as the function does and with its message; after a failure the set fields are those of the longest prefix of records that can be taken in |
| RpcCode.MessageObject.ReadValue | thirdparty/libevent-2.1.11/bin/event_rpcgen.py:307-330 | a payload's bytes are read at the declared type, those of a nested message by a fresh message of its own |
| RpcAcceptance.FeedExact | thirdparty/libevent-2.1.11/bin/event_rpcgen.py:252-276 | the unmarshalling loop succeeds iff every record is readable and no single-valued field is stored twice; each field depends only on its own records |
| RpcAcceptance.UnmarshalAccepts | thirdparty/libevent-2.1.11/bin/event_rpcgen.py:246-305 | for any lossless encoding, unmarshal into a fresh message succeeds iff every tag is declared with a payload its type's primitive can read, single-valued tags occur at most once and required ones occur, at every depth |
| RpcAcceptance.PermutationInvariant | thirdparty/libevent-2.1.11/bin/event_rpcgen.py:246-284 | reordering the records without reordering within an array changes neither verdict nor message |
| RpcRoundTrip.CellsRoundTrip | thirdparty/libevent-2.1.11/bin/event_rpcgen.py:224-303 | what any message without null pointers looks like after marshal and unmarshal, complete or not |
| RpcRoundTrip.NewArrives | thirdparty/libevent-2.1.11/bin/event_rpcgen.py:161-243 | a new message sent as it is arrives with its required scalars set to zeros and empty bytes, and everything else unset |
| RpcRoundTrip.ValueRoundTrip | thirdparty/libevent-2.1.11/bin/event_rpcgen.py:307-343 | a value of any declared type, nested ones included, decodes from its own payload |
| RpcRoundTrip.SubMarshal | thirdparty/libevent-2.1.11/bin/event_rpcgen.py:224-243 | the records of one field within a marshalled message are exactly its own |
| RpcRoundTrip.CompleteSent | thirdparty/libevent-2.1.11/bin/event_rpcgen.py:286-303 | a complete message can be marshalled iff no string array in it, at any depth, holds a null element; settling changes nothing the accessors show |
| RpcRoundTrip.RoundTrip | thirdparty/libevent-2.1.11/bin/event_rpcgen.py:224-343 | for every valid schema and every complete message: marshalling meets no null pointer iff no string array holds one, and then the buffer is read back as an equal message with the same flags |
| RpcRoundTrip.NullAddedUnsendable | thirdparty/libevent-2.1.11/bin/event_rpcgen.py:687-699 | adding a null pointer to a string array of any complete message leaves it complete and impossible to marshal |
| RpcRoundTrip.CompleteButUnsendable | thirdparty/libevent-2.1.11/bin/event_rpcgen.py:687-699 | the smallest such message: one string array, one null pointer added |
| RpcCanonical.UnmarshalCanonical | thirdparty/libevent-2.1.11/bin/event_rpcgen.py:224-303 | a message that was read holds no null pointer, and re-marshalling it gives the canonical form of the records, at every depth |
| RpcCanonical.ArrangeIsStableSort | thirdparty/libevent-2.1.11/bin/event_rpcgen.py:224-243 | that form is a stable sort into declaration order: no record lost or invented, fields in order, each field's records in the order of arrival |
| RpcCanonical.ArrangeKeeps | thirdparty/libevent-2.1.11/bin/event_rpcgen.py:224-243 | the multiset of records is kept, each with its payload in canonical form |
| RpcCanonical.FieldCanonical | thirdparty/libevent-2.1.11/bin/event_rpcgen.py:1204-1243 | a field that has received its own records marshals to them, nested ones rearranged |
| RpcCanonical.ArrangedSame | thirdparty/libevent-2.1.11/bin/event_rpcgen.py:246-284 | the canonical form unmarshals to the same message |
| RpcAssign.ClearBlanks | thirdparty/libevent-2.1.11/bin/event_rpcgen.py:911-920 | clear leaves every field unset and every array empty, for any well-typed message |
| RpcAssign.BlankLikeNew | thirdparty/libevent-2.1.11/bin/event_rpcgen.py:246-284 | unmarshalling into a cleared message cannot be told from unmarshalling into a new one |
| RpcAssign.AssignCopies | thirdparty/libevent-2.1.11/bin/event_rpcgen.py:795-821 | for struct fields and struct array elements, and a complete source anywhere (in memory of its own, containing the target, being it, inside it, beside it), provided what is marshalled fits the encoding: the copy equals the source as it was at the call iff the source holds no null element and clearing the target leaves it undisturbed, a condition on flags and places |
| RpcAssign.NeverRefused | thirdparty/libevent-2.1.11/bin/event_rpcgen.py:841-879 | exactly when an assignment reads freed memory, meets a null pointer, or succeeds; one whose records fit is never refused |
| RpcAssign.UnsetFieldCopies | thirdparty/libevent-2.1.11/bin/event_rpcgen.py:852-868 | into an unset field any complete source without null elements is copied, the message around the field included |
| RpcAssign.ContainingLosesField | thirdparty/libevent-2.1.11/bin/event_rpcgen.py:848-868 | a message assigned to a set optional field of itself: the call succeeds and the copy lacks that field |
| RpcAssign.NodeLosesNext | thirdparty/libevent-2.1.11/bin/event_rpcgen.py:848-868 | the smallest such message, a list of two nodes |
| RpcAssign.UnlinkDangles | thirdparty/libevent-2.1.11/bin/event_rpcgen.py:848-862 | a field assigned its grandchild: the source is freed before it is read |
| RpcAssign.GetKeepsComplete | thirdparty/libevent-2.1.11/bin/event_rpcgen.py:823-839 | getting an unset struct field of a complete message leaves it complete iff that struct requires nothing |
| RpcPlaces.DeepChange | thirdparty/libevent-2.1.11/bin/event_rpcgen.py:224-243 | a field changed at any depth of a complete message shows in what a receiver gets exactly when it is sent along, and then as the field itself does |
| RpcPlaces.AtElsewhere | thirdparty/libevent-2.1.11/bin/event_rpcgen.py:841-879 | a change to one field leaves every message beside it as it was |
| RpcPlaces.AtAbove | thirdparty/libevent-2.1.11/bin/event_rpcgen.py:841-879 | a change to one field is a change inside every message around it |
| RpcAssign.SelfAssignExact | thirdparty/libevent-2.1.11/bin/event_rpcgen.py:841-879 | assigning a field to itself keeps the message iff every field survives being cleared, and meets a null pointer iff there is a required string or struct |
| RpcArray.StepTight | thirdparty/libevent-2.1.11/bin/event_rpcgen.py:1136-1226 | one add, receive or clear keeps the bounds; a success writes below the capacity, a failure restores the length |
| RpcArray.GrowthBounds | thirdparty/libevent-2.1.11/bin/event_rpcgen.py:1136-1226 | after any operations from empty the capacity is 0 or a power of two and at least the length; it stays within twice the length iff no element fails just after the storage has grown for it with nothing or a slot to spare |
| RpcArray.StepSpoils | thirdparty/libevent-2.1.11/bin/event_rpcgen.py:1136-1226 | one operation breaks the factor two exactly in that case |
| RpcArray.SuccessKeepsHalfFull | thirdparty/libevent-2.1.11/bin/event_rpcgen.py:1136-1226 | under successful operations the factor two holds throughout |
| RpcArray.LostElementBreaksBound | thirdparty/libevent-2.1.11/bin/event_rpcgen.py:1204-1226 | one element that fails after the growth breaks the factor two |
| RpcArray.RoomExact | thirdparty/libevent-2.1.11/bin/event_rpcgen.py:1136-1226 | after any operations from empty: an element that could be built is added, with memory, iff the new length is below 2^30, and received iff the old one is; without memory iff the slot asked for is there |
| RpcArray.HeldAfterReceives | thirdparty/libevent-2.1.11/bin/event_rpcgen.py:1204-1226 | n elements received are held in the least power of two that takes them |
| RpcArray.HeldAfterAdds | thirdparty/libevent-2.1.11/bin/event_rpcgen.py:1136-1177 | n elements added are held in the least power of two above n, but one and two in exactly n |
| RpcArray.ArrayField.ExpandToHoldMore | thirdparty/libevent-2.1.11/bin/event_rpcgen.py:1140-1154 | storage doubles, contents kept; on failure it stays |
| RpcArray.ArrayField.Reserve | thirdparty/libevent-2.1.11/bin/event_rpcgen.py:1156-1164 | counts the new element and makes room, or restores the length |
| RpcArray.ArrayField.Add | thirdparty/libevent-2.1.11/bin/event_rpcgen.py:1156-1177 | appends the value or changes no element, and moves the storage as the step function says |
| RpcArray.ArrayField.Receive | thirdparty/libevent-2.1.11/bin/event_rpcgen.py:1204-1226 | the same for an element being unmarshalled |
| RpcArray.ArrayField.Clear | thirdparty/libevent-2.1.11/bin/event_rpcgen.py:1245-1274 | a set array is emptied and its storage given up |
| RpcFrontEnd.ProcessOneEntry | thirdparty/libevent-2.1.11/bin/event_rpcgen.py:1308-1410 | the token loop accepts an entry iff it spells a declaration, and returns that one; otherwise the error of the first token that does not fit, or of the choice of type |
| RpcFrontEnd.AcceptedExactly | thirdparty/libevent-2.1.11/bin/event_rpcgen.py:1308-1410 | an entry is accepted, as a declaration, iff it spells it by the written-out grammar: `optional` or `array` or neither; `int`, `int64`, `string`, `bytes`, `struct[identifier]`; a name without brackets, with a length only for bytes; an equals sign; a tag printed in decimal or padded hexadecimal; no array of bytes |
| RpcFrontEnd.TypeIs | thirdparty/libevent-2.1.11/bin/event_rpcgen.py:1367-1385 | the entry class chosen is that of the keyword, and a length goes with bytes only |
| RpcFrontEnd.TagIs | thirdparty/libevent-2.1.11/bin/event_rpcgen.py:1355-1360 | a tag token is read as n iff it is the printing of n in decimal, or in hexadecimal with zeros before it and only decimal digits |
| RpcFrontEnd.NameIs | thirdparty/libevent-2.1.11/bin/event_rpcgen.py:1336-1346 | a name token is a bracket-free name, alone or with a bracketed length |
| RpcFrontEnd.StructObject.AddEntry | thirdparty/libevent-2.1.11/bin/event_rpcgen.py:59-67 | an entry is added iff its tag is new |
| RpcFrontEnd.ProcessStruct | thirdparty/libevent-2.1.11/bin/event_rpcgen.py:1412-1433 | a struct is accepted iff every entry is and all tags differ |
| RpcFrontEnd.AcceptedIsValid | thirdparty/libevent-2.1.11/bin/event_rpcgen.py:395-407 | accepted structs with defined references make a valid schema |
| RpcGenerator.GeneratedCodeRoundTrips | thirdparty/libevent-2.1.11/bin/event_rpcgen.py:149-343 | for every accepted file and every lossless encoding: the code of each struct reads a buffer iff its records have declared tags and payloads of the declared types, what is no array at most once, what is neither optional nor an array at least once; it can marshal a complete message iff it holds no null element, and then reads it back equal |
| RpcGenerator.GeneratedFields | thirdparty/libevent-2.1.11/bin/event_rpcgen.py:246-330 | what is read has in each field values of its declared type (an int below 2^32, an int64 below 2^64, a string without zero bytes, bytes of the declared length), as many as there are records of its tag |
| RpcGenerator.ScalarsExact | thirdparty/libevent-2.1.11/bin/event_rpcgen.py:1367-1385 | for any lossless encoding, the values that can be read at a declared scalar type are exactly those of the type, and each is read back from its own payload |
| RpcGenerator.RecordsDeclared | thirdparty/libevent-2.1.11/bin/event_rpcgen.py:1367-1410 | acceptance by the schema of a struct is acceptance by its declarations, at every depth |
| Registry.BuiltIsFirstUp | src/ams/interact.cc:233-251 | the map built sends each name to the instances that are up, in order, of the first application of that name with any; nothing else is in it |
| Registry.UpIndices | src/ams/interact.cc:238-247 | the list of an application holds host, port and status read at a strictly increasing sequence of indices that hits exactly the instances whose status reads "UP" |
| Registry.BuiltShows | src/ams/interact.cc:233-251 | the map answers every name with such a list of the first application of that name with an instance that is up, and with nothing if there is none |
| Registry.Impl.constructor | src/ams/interact.cc:36-56 | two empty maps, flag zero |
| Registry.Impl.ParserData | src/ams/interact.cc:224-259 | a readable reply is published whole under the next flag, in a map that answers every name as the reply says; any other leaves the published map and the flag alone, whatever it left in the inactive map |
| Registry.Impl.AcqInstance | src/ams/interact.cc:157-183 | succeeds iff the published map lists the service, with the instance drawn from its list, whose status is "UP" |
| RegistryPublish.StepInv | src/ams/interact.cc:157-341 | every step of the updater, the clock and any reader keeps the publication invariant |
| RegistryPublish.ReachableInv | src/ams/interact.cc:157-341 | the publication invariant holds after every run |
| RegistryPublish.IntactKept | src/ams/interact.cc:224-259 | no step of the updater touches a published map before its deadline |
| RegistryPublish.ParsingIsRun | src/ams/interact.cc:224-259 | from the arrival of a reply the updater's steps lead to the maps and flag that ParserData leaves |
| RegistryPublish.SnapshotSafety | src/ams/interact.cc:157-171 | a reader that finishes within two seconds of loading the flag is told what exactly one whole readable reply says of the name |
| RegistryHistory.SourcesAreReplies | src/ams/interact.cc:140-155 | after every run what has been published is the empty registry and then the readable replies of the run, in order, the last perhaps still being parsed |
| RegistryHistory.ReaderMoment | src/ams/interact.cc:157-171 | the name, flag and times recorded of a reader are those of its last load and last step in the run |
| RegistryHistory.ReaderAnswered | src/ams/interact.cc:157-259 | in every run a reader that takes less than two seconds is told what the newest readable reply at its load says of the name, or the one before while that is being parsed |
| RegistryPublish.FailureInvisible | src/ams/interact.cc:140-155 | a step that does not bump the flag leaves the map under the current flag, and what has been published, as they were (the map under the previous flag may be cleared) |
| RegistryPublish.GapIsExact | src/ams/interact.h:73 | for every delay: all readers that take it are told what one whole reply says, in every reachable state, iff it is less than two seconds |
| RegistryPublish.SlowReaderLoses | src/ams/interact.cc:157-171 | for every delay of at least two seconds some reader that takes it loses the entry it has found |
| ConfigCode.ConfigLoader.constructor | src/config/config_loader.cc:19-29 | no configuration, no object |
| ConfigCode.ConfigLoader.GetConfig | src/config/config_loader.cc:44-47 | the published text, or the empty string |
| ConfigCode.ConfigLoader.DoUpdating | src/config/config_loader.cc:98-121 | is the machine's round; succeeds iff the code is 200 and there is a body, replaces the object iff the text differs, and frees the old one; otherwise changes nothing that is held |
| ConfigCode.ConfigLoader.StopUpdating | src/config/config_loader.cc:94-96 | lowers the flag |
| ConfigCode.ConfigLoader.OneRound | src/config/config_loader.cc:73-82 | one turn of the loop holds the body of the answer if its code is 200 and it has one, else what was held |
| ConfigCode.ConfigLoader.StartUpdating | src/config/config_loader.cc:71-83 | rounds end with the first in which the flag went down, and the body of the last answer with code 200 and a body is held |
| ConfigModel.StepInv | src/config/config_loader.cc:44-121 | every step of the updater, the clock and any reader keeps the ownership invariant |
| ConfigModel.ReachableInv | src/config/config_loader.cc:44-121 | the ownership invariant holds after every run |
| ConfigModel.SafeKept | src/config/config_loader.cc:108-117 | no step of the updater frees or changes an object before the deadline of a reader that loaded it |
| ConfigModel.PointerSound | src/config/config_loader.cc:98-121 | the pointer is null or live, at most two objects exist, none leaks, and the published text is the newest accepted one |
| ConfigModel.NeverNullAgain | src/config/config_loader.cc:104-111 | once set, the pointer is never null |
| ConfigModel.ReadersSafe | src/config/config_loader.cc:44-47 | no reader follows null; one that finishes within three seconds touches only live memory and returns the whole text published when it loaded the pointer |
| ConfigHistory.ShownIsNewest | src/config/config_loader.cc:98-121 | after every run the pointer leads to the body of the last response of the run with code 200 and a body, or of the one before while the newest is about to be swapped in |
| ConfigHistory.ReaderMoment | src/config/config_loader.cc:44-47 | the text and times recorded of a reader are those of its last test or load and of its last step in the run |
| ConfigHistory.ReaderTold | src/config/config_loader.cc:44-121 | in every run a reader that takes less than three seconds returns that body as of its load, or the empty string if there was none |
| ConfigHistory.RoundsSpaced | src/config/config_loader.cc:71-83 | in every run two responses are at least ten seconds apart |
| ConfigModel.GraceIsExact | src/config/config_loader.cc:113-117 | for every delay: all readers that take it read safely, in every reachable state, iff it is less than three seconds |
| ConfigModel.SlowReaderTouchesFreed | src/config/config_loader.cc:44-47 | for every delay of at least three seconds some reader that takes it touches freed memory |
| Helpers.Ltrim | src/utils/helpers.h:36-40 | erases exactly the leading white space |
| Helpers.Rtrim | src/utils/helpers.h:43-47 | erases exactly the trailing white space |
| Helpers.TrimBoth | src/utils/helpers.h:50-52 | both |
| Helpers.SpaceChars | src/utils/helpers.h:36-47 | white space is blank, tab, newline, vertical tab, form feed and carriage return, and nothing else |
| Helpers.TrimPadded | src/utils/helpers.h:36-52 | a trimmed text is recovered from between any white space |
| Helpers.TrimSplits | src/utils/helpers.h:36-52 | every string is white space, its trimmed form, white space |
| Helpers.Response.WriteCallback | src/utils/helpers.cc:14-21 | body chunks accumulate in order |
| Helpers.Response.HeaderCallback | src/utils/helpers.cc:23-44 | splits at the first colon, trims both sides; a line without one is recorded as present unless blank |
| Helpers.LineRecovered | src/utils/helpers.cc:28-41 | a printed field is recovered iff its key has no colon and key and value are trimmed |
| Helpers.LineSets | src/utils/helpers.cc:35-41 | such a field overrides an earlier one of the same key and touches no other |
| Helpers.ColonlessLine | src/utils/helpers.cc:28-34 | a line without a colon marks its trimmed text as "present", and a blank line changes nothing |
| Helpers.CrlfLines | src/utils/helpers.cc:23-44 | the same for lines ended by "\r\n", as they arrive |
| Helpers.PrintHeaders | src/utils/http_curl.cc:126-129 | one key:value line per field |
| Helpers.HeadersRoundTrip | src/utils/helpers.cc:23-44 | a printed list of such fields with distinct keys is recovered: each with its value and nothing else |
| Helpers.CrlfRoundTrip | src/utils/helpers.cc:23-44 | with every line ended by "\r\n" and an empty line at the end |
| Helpers.PutDataStruct.ReadCallback | src/utils/helpers.cc:46-61 | copies as much of the rest as fits, advances past it, and leaves the rest of the buffer alone |
| Helpers.PutDataStruct.HandOver | src/utils/helpers.cc:46-61 | repeated reads hand over exactly the chunks of the specification, which join to what was stepped over |
| Helpers.ChunksJoin | src/utils/helpers.cc:46-61 | for any buffer sizes the chunks join to a prefix of the upload, all of it once the sizes suffice |

## Left out

- Weak memory: relaxed atomics are read and written in one global order, and a condition-variable wait releases and
  blocks in one step.
- libevent, libcurl, JSON and logging: the pipe is a bounded byte count with level-triggered readiness, a JSON
  document is a tree whose accesses may fail, and the `evtag_*` primitives are a parameter of which only
  losslessness is asked (`RpcMessage.Lossless`; `RpcWire` shows that it can be met).
- Records that the encoding has no room for: which ones fit is a parameter (`RpcMessage.Fits32` is the bound of 32-bit tags
  and lengths), and what was written is promised back only if all of it fits.
- `malloc(0)`, for empty variable-length bytes, is taken to succeed.
- Socket errors other than a full buffer; a `recv` is taken to return the bytes available, at most 24.
- Sockets, HTTP requests, registration with the registry (its body, `Interrupt`, the heartbeat), `Args::GetUrl`, command line:
  straight-line calls into foreign code.
- Throwing expiry closures and IO functors; failed allocation other than of array storage and reply buffers.
- Handlers registered while requests are served: all registration precedes the start.
- `ThreadPool::Stop` lines 100-102, which join threads that were detached when they were created.
- `HandsOnUpdate`: one updater only.  Also the destructors, so nothing is said of readers after destruction.
- The value `pending_functor_count_` starts from is arbitrary in the source; results are relative to it.
- Overflow of `flag_num_` (required below the int maximum), of 64-bit milliseconds and of the idle and pending counters.
- Array storage beyond 2^30 elements: the shift overflows, which is treated as a failed allocation.
- A message belongs to one tree: two fields that point to the same nested message are not modelled.
- RpcCode.MessageObject.UnmarshalFrom: leaves open what an unset field holds after a failed read, because that is up to the primitives.
- Indexed assignment of integers and strings in arrays, assignment of the other scalar fields, `get` of scalars and arrays,
  `free`, and the declarations of accessors.  When memory runs out, an element of a struct array is left cleared.
- Comment stripping, line normalisation and the file output of the generator; tags with superfluous leading
  zeros are rejected, as `int(token, 0)` does in Python 3.
- Which instance a random draw picks: `AcqInstance` takes the draw as a parameter.
- `size * nmemb` overflowing `size_t` in the callbacks, and characters that are negative as `char`.
