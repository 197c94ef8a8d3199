# legacy-executors, modelled in Dafny

This project models the runtime core of the legacy-executors C++ library and
its example programs. Dafny proves properties of the model.

- **The static thread pool.** Its intrusive, ownership-transferring task list
  (`Function_intrusive_list`) and each worker's lock-free private FIFO of
  deferred continuations are modelled. So are the routing rules of `execute`
  (inline, private queue or shared list) and the worker loop `attach`, with
  `stop`, `wait` and the destructor.
- **The stackful coroutine runtime.** This covers the `State` bit flags, the
  `Context` (register file, stack buffer, `prepare`, `getSp`, `test`) and the
  `Coroutine`/`Environment` pair (call stack, recycle stack of contexts,
  `resume`, `yield`, `routineWrapper`). It also covers `Co_executor` with its
  `Looper` and the two `calculate` coroutines.
- **The coroutine-aware POSIX hooks.** These are `addEvent`, the event `loop`,
  `read`, `write`, `accept4`, `connect` with retry and back-off, `usleep` and
  `poll`.
- **The future/`then` example.** The control-block state machine, `Promise`,
  `Future::then`/`cancelIf`/`get`, and the four-stage chain of `then.cpp`.
- **The custom priority executor.** Its context runs the highest-priority item
  first.
- **The pipeline example.** Its stoppable queue, the `System_executor`, and the
  four stages reader, filter, upper and writer.
- **The actor example.** The handler table of `Actor`, `send`/`defer_send`
  routing, `Receiver`, and the token ring of `actor.cpp`.

Objects whose fields the C++ updates in place are classes:

- the list head and nodes;
- the thread pool and its private data;
- `Context`, `Coroutine` and `Environment`;
- `PollConfig`;
- control blocks, promises and futures;
- the priority context;
- the pipe queue;
- actors.

Pure computations are functions and lemmas. Loops are methods with
invariants, proved against specification functions. Thread-local instances
become explicit parameters. Blocking waits on a condition variable become an
explicit outcome (`Blocked`, `Waiting`) that changes no state. System calls
are inputs: their results are method parameters.

In these points the code does something its names or comments could lead a
reader to expect otherwise; the model does what the code does:

- `execute` with blocking `never` and relationship `fork`, called from a
  worker of the same pool, pushes to the shared list. Only `possibly` and
  `always` run inline (`ThreadPool.RouteOf`).
- The fibonacci coroutine prints 1, 2, 3, 5, 8, 13, 21, because its loop starts
  at `i = 2` (`Calculate.FibonacciSeven`).
- In the actor ring, member `i + 1` receives member `i`'s address as its
  `_next`. The token therefore travels backwards around the ring
  (`ActorRing.RingInit`).
- `deregister_handler` compares with `typeid(Message_handler<M>)`, never with
  `typeid(M)` (see Findings).
- The priority context runs the item with the largest priority value first,
  which is what `std::priority_queue` with `operator<` does. The comment in
  examples/custom_executor/priority.cpp:19 says a higher priority has a smaller
  value.
- The pipeline's lines are `std::string`s, so `filter`'s `size() < 5` counts
  bytes, not characters. A line is a `Pipeline.Line`: a `string` whose every
  `char` is below 256 and stands for one byte, so its length is `size()`.

## Model

| member | source | states |
|---|---|---|
| FunctionList.Node.constructor | include/impl/Functions.hpp:55-62 | a new node carries its closure and owns no successor |
| FunctionList.ListHead.constructor | include/impl/Functions.hpp:42-52 | a new list head owns no node; the chain invariant holds |
| FunctionList.ListHead.Empty | include/impl/Functions.hpp:85-86 | `empty` is true exactly when the head owns no node |
| FunctionList.ListHead.Push | include/impl/Functions.hpp:88-94 | the new node goes in front (LIFO) and owns the old first node; the contents become `[t] + old contents`; no node is owned twice |
| FunctionList.ListHead.PushRange | include/impl/Functions.hpp:96-103 | a whole chain is spliced in front in one step, keeping its order; the contents become `range + old contents` |
| FunctionList.ListHead.ConsumeOne | include/impl/Functions.hpp:105-111 | on a non-empty list the front node is detached and returned without a successor; the rest keeps its order |
| FunctionList.PushThenConsume | include/impl/Functions.hpp:88-111 | push followed by `consume_one` returns the pushed node and restores the list |
| ThreadPool.RouteOf | include/executors/Static_thread_pool.hpp:242-313 | a function is run inline exactly when the caller is this pool's worker and blocking is not `never`; it is deferred to the private queue exactly when the caller is this pool's worker and the request is never + continuation; from any other thread it goes to the shared list |
| ThreadPool.PrivateData.constructor | include/executors/Static_thread_pool.hpp:382-385 | the private queue starts empty, `_tail_ptr` at `_head` and `_prev_tail_ptr` null |
| ThreadPool.PrivateData.QueueEmpty | include/executors/Static_thread_pool.hpp:419-421 | `private_queue_empty` (tail slot is the head slot) holds exactly when the queue has no node |
| ThreadPool.PrivateData.QueuePush | include/executors/Static_thread_pool.hpp:396-401 | a fresh node is appended at the tail (FIFO); `_prev_tail_ptr` then names the slot holding it |
| ThreadPool.PrivateData.LastSlot | include/executors/Static_thread_pool.hpp:403-417 | of a non-empty queue, `_head` holds the first node and `_prev_tail_ptr` the last; they coincide only for one node |
| ThreadPool.PrivateData.QueueDetach | include/executors/Static_thread_pool.hpp:403-417 | the whole private queue is spliced, in order, in front of the owner's shared list and the queue is reset; an empty queue changes nothing |
| ThreadPool.PrivateData.Splice | include/executors/Static_thread_pool.hpp:403-417 | a single node is pushed alone and a longer chain as one range from `_head` to the node in `_prev_tail_ptr`; the shared list becomes `queue + old list` |
| ThreadPool.StaticThreadPool.constructor | include/executors/Static_thread_pool.hpp:227-231 | a new pool is not stopped, `_running` is 1, the shared list is empty, and it holds `n` threads |
| ThreadPool.StaticThreadPool.Execute | include/executors/Static_thread_pool.hpp:242-313 | proved against `RouteOf`: inline runs record the function and leave both queues unchanged; a deferral appends one fresh node to the caller's private queue; every other request puts one fresh node in front of the shared list |
| ThreadPool.StaticThreadPool.PushShared | include/executors/Static_thread_pool.hpp:293-304 | one fresh node in front of the shared list and nothing else |
| ThreadPool.StaticThreadPool.TwowayExecute | include/executors/Static_thread_pool.hpp:315-334 | `twoway_execute` routes its wrapped function exactly as `execute` would, with the same change per route to the functions run, the caller's private queue and the shared list |
| ThreadPool.StaticThreadPool.InvokeTask | include/executors/Static_thread_pool.hpp:283-291 | a task that starts with an empty private queue and submits `subs` as never + continuation from its worker leaves exactly `subs`, in order and as fresh nodes, in the private queue; the shared list is untouched |
| ThreadPool.StaticThreadPool.Defer | include/executors/Static_thread_pool.hpp:283-291 | a never + continuation request from this pool's worker appends one fresh node to its private queue |
| ThreadPool.StaticThreadPool.Attach | include/executors/Static_thread_pool.hpp:336-360 | the worker loop is proved against `AttachSpec`: the exit reason, the functions run in order, and the final shared list |
| ThreadPool.StaticThreadPool.CheckExit | include/executors/Static_thread_pool.hpp:341-346 | the wait-condition, `_stopped` and drain checks of `attach` end the loop with the outcome reached so far; otherwise the pool is running and a task is at the front |
| ThreadPool.StaticThreadPool.RunOne | include/executors/Static_thread_pool.hpp:338-358 | one turn runs the front task, and the continuations it submitted end up in front of the rest of the list |
| ThreadPool.StaticThreadPool.TakeFront | include/executors/Static_thread_pool.hpp:350-353 | `consume_one` on the shared list, then the taken function is recorded as run |
| ThreadPool.StaticThreadPool.InvokeAndFlush | include/executors/Static_thread_pool.hpp:338-358 | after running a body that submits `subs` and then `private_queue_detach`, the shared list is `subs + old list` with fresh nodes in front and the private queue is empty |
| ThreadPool.StaticThreadPool.Stop | include/executors/Static_thread_pool.hpp:362-366 | `stop` sets `_stopped` and changes nothing else |
| ThreadPool.StaticThreadPool.Wait | include/executors/Static_thread_pool.hpp:368-380 | `wait` moves the threads out and decrements `_running` only if there were threads; a second `wait` does nothing |
| ThreadPool.StaticThreadPool.Destroy | include/executors/Static_thread_pool.hpp:233-236 | the destructor stops, then waits: afterwards the pool is stopped and holds no threads, with queued tasks abandoned |
| ThreadPool.AttachStep | include/executors/Static_thread_pool.hpp:338-358 | one turn of the loop on abstract state: the front task runs and what it submitted goes in front of the rest |
| ThreadPool.AttachHalts | include/executors/Static_thread_pool.hpp:341-346 | the four ways out of the loop each give the outcome reached so far |
| ThreadPool.AttachAdvance | include/executors/Static_thread_pool.hpp:336-360 | the loop invariant of `attach` carries over one turn |
| ThreadPool.StoppedWorkerRunsNothing | include/executors/Static_thread_pool.hpp:341-342 | a worker of a stopped pool returns at once and runs nothing, even with tasks queued |
| ThreadPool.IdleWorkerBlocks | include/executors/Static_thread_pool.hpp:341 | a worker of a running pool with an empty list blocks |
| ThreadPool.AttachConserves | include/executors/Static_thread_pool.hpp:336-360 | no task is lost or duplicated: the tasks run plus those left equal, as a multiset, the tasks queued plus those submitted |
| ThreadPool.AttachConservesStep | include/executors/Static_thread_pool.hpp:338-358 | the conservation law over a turn in which a task is taken |
| ThreadPool.SubmittedShift | include/executors/Static_thread_pool.hpp:338-358 | the submissions of `k + 1` tasks are the first task's followed by those of the next `k` |
| ThreadPool.DrainRunsEverything | include/executors/Static_thread_pool.hpp:341-353 | once `_running` is 0, a worker whose tasks submit nothing runs the whole list front to back and exits with it empty |
| ThreadPool.RunsPrefixInOrder | include/executors/Static_thread_pool.hpp:341-358 | the shared list is run in list order |
| ThreadPool.ContinuationsRunInOrder | include/executors/Static_thread_pool.hpp:283-291 | the continuations a task defers run right after it, in submission order |
| CoState.State.constructor | examples/stackful_coroutine/co/State.h:21 | the flag value-initialises to 0 |
| CoState.State.And | examples/stackful_coroutine/co/State.h:13 | `&` gives a mask whose bits are set in both the flag and the argument |
| CoState.State.Or | examples/stackful_coroutine/co/State.h:14 | `\|` gives a mask that keeps every bit of the flag and of the argument |
| CoState.State.Xor | examples/stackful_coroutine/co/State.h:15 | `^` gives a mask from which `^` with the same argument recovers the flag |
| CoState.State.AndAssign | examples/stackful_coroutine/co/State.h:17 | `&=` leaves the flag `&` would have returned |
| CoState.State.OrAssign | examples/stackful_coroutine/co/State.h:18 | `\|=` leaves the flag `\|` would have returned |
| CoState.State.XorAssign | examples/stackful_coroutine/co/State.h:19 | `^=` leaves the flag `^` would have returned |
| CoState.StateBitsDistinct | examples/stackful_coroutine/co/State.h:8-11 | MAIN, IDLE, RUNNING and EXIT are single, pairwise disjoint bits |
| CoState.XorTwiceRestores | examples/stackful_coroutine/co/State.h:15 | applying the same `^` twice restores the flag |
| CoState.ExitFlip | examples/stackful_coroutine/co/Coroutine.h:183 | on a running, not exited flag, `^= EXIT \| RUNNING` sets EXIT, clears RUNNING and keeps every other bit |
| CoState.SetRunning | examples/stackful_coroutine/co/Coroutine.h:156 | `\|= RUNNING` sets RUNNING, keeps EXIT and every other bit |
| CoContext.StackPointer | examples/stackful_coroutine/co/Context.h:75-79 | `getSp` is 16-byte aligned and lies between 23 and 8 bytes below the stack's end |
| CoContext.LittleEndian | examples/stackful_coroutine/co/Context.h:81-88 | the stored word takes exactly `n` bytes |
| CoContext.LittleEndianRoundTrip | examples/stackful_coroutine/co/Context.h:81-88 | reading back the little-endian bytes of a word gives the word |
| CoContext.PreparedRegisters | examples/stackful_coroutine/co/Context.h:81-88 | the register file holds exactly fourteen slots |
| CoContext.PreparedSlots | examples/stackful_coroutine/co/Context.h:9-34 | the RSP, return-address and RDI slots are distinct and hold the stack pointer, callback and argument; the other eleven are zero |
| CoContext.Context.constructor | examples/stackful_coroutine/co/Context.h:51-52 | a context owns a fresh register file and a stack buffer at the given base |
| CoContext.Context.GetSp | examples/stackful_coroutine/co/Context.h:75-79 | the stack pointer is aligned and a whole word below it fits in the stack |
| CoContext.Context.Test | examples/stackful_coroutine/co/Context.h:69-73 | the signed `ptrdiff_t` distance test holds exactly when the probe address lies inside the stack |
| CoContext.Context.StoreWord | examples/stackful_coroutine/co/Context.h:83-84 | the callback's eight bytes are stored least significant first at the stack pointer; no other byte changes |
| CoContext.Context.Prepare | examples/stackful_coroutine/co/Context.h:64-88 | after `prepare(ret, rdi)` the registers are zero except RSP = `getSp`, RET = `ret` and RDI = `rdi`, and the word at the stack pointer reads back as `ret` |
| CoCoroutine.Coroutine.constructor | examples/stackful_coroutine/co/Coroutine.h:38-48 | a new coroutine has flag 0 and no context |
| CoCoroutine.Coroutine.Start | examples/stackful_coroutine/co/Coroutine.h:152-157 | the first resume takes the top recycled context (or a new one), prepares it to enter `routineWrapper` with this coroutine as argument, and sets RUNNING |
| CoCoroutine.Coroutine.Resume | examples/stackful_coroutine/co/Coroutine.h:148-162 | an exited coroutine is returned unchanged; any other is pushed on the call stack and switched to from the previous top; the first resume also prepares a context and sets RUNNING |
| CoCoroutine.Coroutine.RoutineWrapper | examples/stackful_coroutine/co/Coroutine.h:178-190 | after the entry returns, RUNNING becomes EXIT, the context is donated to the recycle stack when it has room, and the coroutine is popped for good |
| CoCoroutine.Environment.constructor | examples/stackful_coroutine/co/Coroutine.h:113-117 | the call stack starts as `[main]` with a main coroutine that owns a context; the recycle stack is empty |
| CoCoroutine.Environment.Current | examples/stackful_coroutine/co/Coroutine.h:101-103 | `current` is on the call stack |
| CoCoroutine.Environment.Push | examples/stackful_coroutine/co/Coroutine.h:105-107 | `push` appends to the call stack |
| CoCoroutine.Environment.Pop | examples/stackful_coroutine/co/Coroutine.h:109-111 | `pop` removes the top of the call stack |
| CoCoroutine.Environment.Reusable | examples/stackful_coroutine/co/Coroutine.h:78 | `reusable` holds when the recycle stack holds a context |
| CoCoroutine.Environment.Recyclable | examples/stackful_coroutine/co/Coroutine.h:81 | `recyclable` holds when the recycle stack is not full |
| CoCoroutine.Environment.Reuse | examples/stackful_coroutine/co/Coroutine.h:119-122 | `reuse` pops the top recycled context and leaves its slot empty |
| CoCoroutine.Environment.Acquire | examples/stackful_coroutine/co/Coroutine.h:153-154 | a starting coroutine gets the top recycled context when one exists, otherwise a new context |
| CoCoroutine.Environment.Recycle | examples/stackful_coroutine/co/Coroutine.h:124-126 | `recycle` pushes the context on the recycle stack |
| CoCoroutine.Environment.CreateCoroutine | examples/stackful_coroutine/co/Coroutine.h:90-94 | a new coroutine of this environment, not started |
| CoCoroutine.Environment.Test | examples/stackful_coroutine/co/Coroutine.h:132-134 | `test` holds only when the running coroutine has a context, and then exactly when the probe address lies inside its stack |
| CoCoroutine.Environment.Yield | examples/stackful_coroutine/co/Coroutine.h:164-176 | `yield` pops the running coroutine and switches to the new top, saving registers only when the yielding coroutine still has a context |
| CoCoroutine.ResumeThenYield | examples/stackful_coroutine/co/Coroutine.h:148-176 | a resume followed by the resumed coroutine's yield restores the call stack and switches back to the resumer |
| CoExecutor.Query | examples/stackful_coroutine/Co_executor.hpp:20-21 | only `blocking.never` and `mapping.other` are answered, both true |
| CoExecutor.Require | examples/stackful_coroutine/Co_executor.hpp:22-25 | a property can be required exactly when the executor reports having it |
| CoExecutor.Execute | examples/stackful_coroutine/Co_executor.hpp:10-16 | `execute` creates a coroutine and resumes it at once: it is pushed above the caller and entered through a prepared context |
| CoExecutor.RoundRobinFair | examples/stackful_coroutine/Co_executor.hpp:32-41 | draining the queue lets each pending coroutine yield exactly as many more times as it owes |
| CoExecutor.SingleDrains | examples/stackful_coroutine/Co_executor.hpp:32-41 | one pending coroutine is resumed until it finishes |
| CoExecutor.TwoAlternate | examples/stackful_coroutine/Co_executor.hpp:32-41 | two pending coroutines alternate while both have yields left, then the longer one runs alone |
| CoExecutor.Looper.constructor | examples/stackful_coroutine/Co_executor.hpp:30 | a new looper has no pending coroutine |
| CoExecutor.Looper.Yield | examples/stackful_coroutine/Co_executor.hpp:43-47 | outside a coroutine's stack `yield` throws; inside, it queues the running coroutine and yields it |
| CoExecutor.Looper.Drain | examples/stackful_coroutine/Co_executor.hpp:32-41 | the destructor's loop empties the queue, and the coroutines yield in the round-robin order; a resume and its next `yield` are folded into re-queueing the coroutine with one yield fewer |
| Calculate.RingSlots | examples/stackful_coroutine/calculate.cpp:17-19 | the slot `i & 3` written differs from the two read, and they shift by one each iteration |
| Calculate.FibSlot | examples/stackful_coroutine/calculate.cpp:19 | the slot written holds the next Fibonacci number modulo 2^64 |
| Calculate.FibonacciBody | examples/stackful_coroutine/calculate.cpp:14-23 | line `k` printed is the (k+2)-th Fibonacci number modulo 2^64, for `k < n` |
| Calculate.FibonacciSeven | examples/stackful_coroutine/calculate.cpp:23 | with `n = 7` the lines are 1, 2, 3, 5, 8, 13, 21 |
| Calculate.StirlingBody | examples/stackful_coroutine/calculate.cpp:25-33 | line `i` is `(i, table[i])` for every table entry |
| Calculate.CalculateSchedule | examples/stackful_coroutine/calculate.cpp:9-36 | after the first lines the looper alternates the two coroutines six times, then runs stirling twice; every line is printed exactly once |
| CoPosix.Bit | examples/stackful_coroutine/co/posix.h:106-117 | each event type requests EPOLLIN, EPOLLOUT or EPOLLERR |
| CoPosix.BitsDistinct | examples/stackful_coroutine/co/posix.h:106-117 | two types' bits overlap exactly when the types are equal |
| CoPosix.WithSlot | examples/stackful_coroutine/co/posix.h:100-101 | storing the caller in the slot of one type changes no other slot, the mask or `data.fd` |
| CoPosix.Register | examples/stackful_coroutine/co/posix.h:86-128 | `addEvent` is refused exactly when the fd's entry already requests the bit; a refused call changes nothing; otherwise the bit is or-ed in, with ADD for a new fd and MOD for a known one |
| CoPosix.RegisterKeepsOthers | examples/stackful_coroutine/co/posix.h:86-128 | a registration changes only its own fd's entry |
| CoPosix.RegisterNew | examples/stackful_coroutine/co/posix.h:94-101 | the first registration for an fd succeeds, records the caller and is an ADD of that bit |
| CoPosix.RegisterExistingKeepsSlots | examples/stackful_coroutine/co/posix.h:102-104 | re-arming a known fd does not record the caller |
| CoPosix.RegisterWellFormed | examples/stackful_coroutine/co/posix.h:86-128 | registrations keep the table invariant: entries keyed by `data.fd`, waiting coroutines' bits in the mask |
| CoPosix.RegisterByEntry | examples/stackful_coroutine/co/posix.h:91-124 | `addEvent` works on the entry it finds or inserts, and refuses exactly when that entry has the bit |
| CoPosix.UpdateWellFormed | examples/stackful_coroutine/co/posix.h:124 | storing a well-formed entry keeps the table invariant |
| CoPosix.NewEntryOk | examples/stackful_coroutine/co/posix.h:96-101 | a new entry with the caller in its slot and that bit is well formed |
| CoPosix.RearmedEntryOk | examples/stackful_coroutine/co/posix.h:124 | or-ing bits into a well-formed entry keeps it well formed |
| CoPosix.Dispatch | examples/stackful_coroutine/co/posix.h:402-410 | one dispatch resumes the READ, WRITE and ERROR waiters in that order, skipping empty slots, whatever bits fired |
| CoPosix.PollConfig.constructor | examples/stackful_coroutine/co/posix.h:56-75 | a configuration has the default 1000 ms timeout, 8 connect retries and an empty table |
| CoPosix.PollConfig.AddEvent | examples/stackful_coroutine/co/posix.h:86-128 | proved against `Register`: the new table, the `epoll_ctl` call logged and the answer |
| CoPosix.PollConfig.LoopStep | examples/stackful_coroutine/co/posix.h:388-413 | readiness of an unknown fd is ignored; for a known fd it is deleted from epoll and its entry erased before its waiters are resumed in `Dispatch` order |
| CoPosix.NewPollConfig | examples/stackful_coroutine/co/posix.h:68-75 | the constructor uses the given fd, or `epoll_create1` when it is negative, and throws "poll config" when both are negative |
| CoPosix.RegisterThenDispatch | examples/stackful_coroutine/co/posix.h:86-413 | a coroutine waiting on a fresh fd is exactly the one resumed when it fires, and the table returns to what it was |
| CoPosix.WaitThenRetry | examples/stackful_coroutine/co/posix.h:133-145 | the slow path registers; if refused it returns 0 without yielding, otherwise it yields and returns the retried call's result |
| CoPosix.HookedRead | examples/stackful_coroutine/co/posix.h:130-145 | a positive first `read` is returned at once; otherwise wait for EPOLLIN and read again |
| CoPosix.HookedWrite | examples/stackful_coroutine/co/posix.h:147-159 | a positive first `write` is returned at once; otherwise wait for EPOLLOUT and write again |
| CoPosix.HookedAccept4 | examples/stackful_coroutine/co/posix.h:220-229 | a non-negative first `accept4` is returned at once; otherwise wait for EPOLLIN and accept again |
| CoPosix.CDiv | examples/stackful_coroutine/co/posix.h:316-317 | C's `/` by a positive divisor truncates toward zero: the quotient times the divisor lies between 0 and the dividend, within one divisor of it |
| CoPosix.CMod | examples/stackful_coroutine/co/posix.h:316-317 | C's `%` by a positive divisor completes the truncating quotient to the dividend, has the dividend's sign, and is smaller than the divisor in magnitude |
| CoPosix.TimerSetting | examples/stackful_coroutine/co/posix.h:316-317 | the C-truncating split into seconds and nanoseconds loses nothing; a non-negative timeout gives a valid `timespec`, a negative one a negative field |
| CoPosix.Indices | examples/stackful_coroutine/co/posix.h:331-348 | descriptor `i` gets id `i` and the timer id `nfds` |
| CoPosix.BuildIndices | examples/stackful_coroutine/co/posix.h:331-348 | the registration loop builds exactly that id table |
| CoPosix.Applied | examples/stackful_coroutine/co/posix.h:375-385 | copying events in keeps every descriptor's `fd` and `events` |
| CoPosix.Reported | examples/stackful_coroutine/co/posix.h:375-385 | the count of non-timer events is at most the number of events |
| CoPosix.AppliedReports | examples/stackful_coroutine/co/posix.h:375-385 | with distinct ids, each reported descriptor gets its own event bits, cut to a `short` |
| CoPosix.AppliedUntouched | examples/stackful_coroutine/co/posix.h:375-385 | a descriptor nothing was reported for is unchanged |
| CoPosix.Collect | examples/stackful_coroutine/co/posix.h:375-385 | the collection loop returns the number of non-timer events and copies their bits in |
| CoPosix.Poll | examples/stackful_coroutine/co/posix.h:300-386 | a non-zero first poll or zero timeout returns at once; a failed creation gives -1; a failed `timerfd_settime` gives -1 with EINTR; a failed timer registration gives -1; every path that does not yield leaves the event table and the descriptors unchanged; otherwise the private epoll fd is registered, the coroutine yields, and the non-timer events are collected |
| CoConnect.Judge | examples/stackful_coroutine/co/posix.h:173-213 | an attempt is done exactly when it registered, read `SO_ERROR`, may be connected and has a peer; it is retried on a transient error; otherwise it fails with EPERM or its own errno |
| CoConnect.Wrap32 | examples/stackful_coroutine/co/posix.h:167-168 | the `int` result of the shift is the value reduced modulo 2^32 into the signed 32-bit range |
| CoConnect.WaitExact | examples/stackful_coroutine/co/posix.h:167-168 | before the attempts of 0-based index `k` from 3 to 22 the wait is exactly 1024 · 2^(k-2) ms, with no wrap-around |
| CoConnect.WaitIntMin | examples/stackful_coroutine/co/posix.h:167-168 | before the attempt of index 23 the shift reaches the sign bit and the wait is `INT_MIN` |
| CoConnect.WaitZero | examples/stackful_coroutine/co/posix.h:167-168 | before the attempts of index 24 to 33 every bit is shifted out and the wait is 0 |
| CoConnect.BackoffFront | examples/stackful_coroutine/co/posix.h:167-168 | the wait list of a range of attempts starts with the first attempt's wait |
| CoConnect.ConnectFrom | examples/stackful_coroutine/co/posix.h:161-218 | at most `maxRetries` attempts are made, with the back-off waits before them |
| CoConnect.ConnectOutcome | examples/stackful_coroutine/co/posix.h:161-218 | all but the last attempt made were retried; the last decides success or its errno; when none decides, all attempts are made and the result is ETIMEDOUT; the return is 0 exactly when no errno is set |
| CoConnect.ConnectStep | examples/stackful_coroutine/co/posix.h:165-215 | attempt `k` decides, or its wait is followed by the rest |
| CoConnect.RetryStep | examples/stackful_coroutine/co/posix.h:165-215 | a retried attempt hands on to the next with its wait appended |
| CoConnect.Connect | examples/stackful_coroutine/co/posix.h:161-218 | the retry loop is proved against `ConnectFrom`: return value, errno and waits |
| CoConnect.DefaultBackoff | examples/stackful_coroutine/co/posix.h:161-169 | with the default `connectRetries` of 8 attempts the waits are 2048, 4096, 8192, 16384 and 32768 ms |
| CoConnect.AllRetriesTimeOut | examples/stackful_coroutine/co/posix.h:165-217 | when every attempt is retried, `connect` gives up with ETIMEDOUT after waiting before each attempt past the third |
| CoConnect.Usleep | examples/stackful_coroutine/co/posix.h:265-298 | a second or more is EINVAL; a failing timer call is EINTR; otherwise a one-shot timer of `usec * 1000` ns is armed and the remaining time is returned in microseconds |
| CoConnect.UsleepRoundTrip | examples/stackful_coroutine/co/posix.h:265-298 | a successful `usleep` returns at most `usec`, and exactly `usec` when no time elapsed |
| Future.SetTransition | examples/future_then/Future/impl/Promise.h:27-49 | `setValue` stores only on NEW (READY, or POSTED with the continuation posted); it is ignored on CANCEL and throws otherwise |
| Future.RegisterTransition | examples/future_then/Future/impl/Future.h:151-184 | the continuation is registered on NEW and READY and posted at once on READY; on CANCEL the next promise is cancelled; otherwise nothing happens |
| Future.SetOnlyOnce | examples/future_then/Future/impl/Promise.h:33-48 | after a stored `setValue` every further one throws "promise can only set once." |
| Future.PostedExactlyOnce | examples/future_then/Future/impl/Future.h:151-184 | whether the value or the continuation comes first, the continuation is posted exactly once and the block ends POSTED |
| Future.CancelPropagates | examples/future_then/Future/impl/Future.h:179-182 | a cancelled block ignores values, and a continuation registered on it cancels the next future |
| Future.ControlBlock.constructor | examples/future_then/Future/impl/ControlBlock.h:44 | a block starts NEW without a continuation |
| Future.Executor.constructor | examples/future_then/Future/impl/Future.h:142-149 | the executor starts with no posted request |
| Future.Executor.Post | examples/future_then/Future/impl/Future.h:142-149 | a request is appended to the posted ones |
| Future.Executor.RunOne | examples/future_then/Future/impl/Promise.h:38-41 | the oldest request calls the continuation with the block's value, then marks the block DONE |
| Future.Promise.constructor | examples/future_then/Future/impl/Promise.h:17-22 | a promise owns a new NEW block |
| Future.Promise.SetValue | examples/future_then/Future/impl/Promise.h:27-49 | proved against `SetTransition`, including the request posted when a continuation is waiting |
| Future.Promise.Cancel | examples/future_then/Future/impl/Promise.h:51-53 | `cancel` sets CANCEL and changes nothing else |
| Future.Promise.GetFuture | examples/future_then/Future/impl/Promise.h:55-57 | the future shares the promise's block |
| Future.NewPair | examples/future_then/Future/impl/Promise.h:17-57 | a promise and its future share a new NEW block |
| Future.Future.constructor | examples/future_then/Future/impl/Future.h:96-99 | the future holds the given executor and block |
| Future.Future.FutureRoutine | examples/future_then/Future/impl/Future.h:151-184 | proved against `RegisterTransition`: a new future for the next step, with the continuation registered, posted or the next promise cancelled |
| Future.Future.HasResult | examples/future_then/Future/impl/Future.h:126-128 | `hasResult` holds when the block is READY |
| Future.Future.Then | examples/future_then/Future/impl/Future.h:101-108 | `then` follows `futureRoutine` with a continuation that sets `f(value)` |
| Future.Future.CancelIf | examples/future_then/Future/impl/Future.h:110-123 | `cancelIf` follows `futureRoutine` with a continuation that cancels or forwards the value |
| Future.Future.Get | examples/future_then/Future/impl/Future.h:130-135 | `get` returns the value and marks the block DEAD, after which a `setValue` throws |
| Future.ThenChain | examples/future_then/Future/impl/Future.h:101-184 | promise, `then(f)`, `setValue(v)` and one run leave the next future ready with `f(v)` |
| ThenExample.Login | examples/future_then/then.cpp:26-31 | `login` compares the password only for the known user names |
| ThenExample.LoginAccepts | examples/future_then/then.cpp:26-31 | `login` accepts exactly the two registered credential pairs |
| ThenExample.SearchByTag | examples/future_then/then.cpp:33-35 | `operator[]` returns the tag's ids, inserting an empty list for an unknown tag and keeping every other entry |
| ThenExample.SearchTwice | examples/future_then/then.cpp:33-35 | a second lookup of a tag returns the same ids and leaves the map as it is |
| ThenExample.GalleryLookups | examples/future_then/then.cpp:45-48 | the gallery has 3 ids for "R18", 5 for "NTR" and none for other tags |
| ThenExample.Connect | examples/future_then/then.cpp:59-63 | the first stage opens the home page |
| ThenExample.OpenTagPage | examples/future_then/then.cpp:95-102 | the second stage gives the tag page below the current one exactly when the login succeeds |
| ThenExample.ListPictures | examples/future_then/then.cpp:103-107 | the third stage throws "unauthorized" exactly when the page is empty, and otherwise searches the user's tag |
| ThenExample.Chain | examples/future_then/then.cpp:90-116 | the chain composes the connect, tag-page and listing stages in order |
| ThenExample.ChainOutcome | examples/future_then/then.cpp:90-116 | the whole chain lists the tag's pictures exactly when the login succeeds, and otherwise ends with the unauthorized error |
| ThenExample.ProgramUsers | examples/future_then/then.cpp:76-116 | jojo gets the "NTR" pictures, dio the "R18" ones, the gallery is unchanged, and a wrong password is refused |
| PriorityContext.PriorityLevels | examples/custom_executor/priority.hpp:17-24 | low < normal < high, and the order on values is strict and total |
| PriorityContext.ItemOrderIgnoresTask | examples/custom_executor/priority.hpp:57-59 | items of equal priority are unordered whatever their tasks |
| PriorityContext.Top | examples/custom_executor/priority.hpp:81 | `top` is an item of the highest priority in the queue |
| PriorityContext.Remove | examples/custom_executor/priority.hpp:82 | `pop` removes exactly that item |
| PriorityContext.PopOrderPermutation | examples/custom_executor/priority.hpp:75-87 | repeated `top`/`pop` takes every item out exactly once |
| PriorityContext.PopOrderSorted | examples/custom_executor/priority.hpp:75-87 | items come out with non-increasing priority |
| PriorityContext.PopStep | examples/custom_executor/priority.hpp:81-82 | one `top`/`pop` takes out the front of the pop order |
| PriorityContext.PrefixDominates | examples/custom_executor/priority.hpp:75-87 | what has run has at least the priority of what remains, and together they are the queue's items |
| PriorityContext.Context.constructor | examples/custom_executor/priority.hpp:95-99 | the context starts with an empty queue and not stopped |
| PriorityContext.Context.Enqueue | examples/custom_executor/priority.hpp:63-71 | `enqueue` adds exactly one item |
| PriorityContext.Context.Stop | examples/custom_executor/priority.hpp:89-93 | `stop` sets the flag and keeps the queue |
| PriorityContext.Context.Run | examples/custom_executor/priority.hpp:75-87 | `run` returns on `_stop` without running anything; otherwise it runs items in pop order until stopped or blocked on an empty queue, everything run having at least the priority of what remains |
| PriorityContext.DefaultExecutor | examples/custom_executor/priority.hpp:73 | `executor()` has normal priority on this context |
| PriorityContext.QueryContext | examples/custom_executor/priority.hpp:36 | `query(execution::context)` returns the executor's context |
| PriorityContext.QueryPriority | examples/custom_executor/priority.hpp:37 | `query(Priority)` returns the executor's priority value |
| PriorityContext.RequirePriority | examples/custom_executor/priority.hpp:38-41 | `require(Priority)` keeps the context and sets the value |
| PriorityContext.RequireLastWins | examples/custom_executor/priority.hpp:38-41 | requiring twice keeps the last value; requiring the current value changes nothing |
| PriorityContext.Execute | examples/custom_executor/priority.hpp:43-46 | `execute` queues the function at the executor's priority |
| PriorityContext.TopOfTwo | examples/custom_executor/priority.hpp:57-59 | of a low and a normal item, `top` is the normal one |
| PriorityContext.TopOfThree | examples/custom_executor/priority.hpp:57-59 | of low, high and normal items, `top` is the high one |
| PriorityContext.PopTwo | examples/custom_executor/priority.hpp:75-87 | a low and a normal item come out normal first |
| PriorityContext.ThreeLevelsOrder | examples/custom_executor/priority.hpp:75-87 | low, high and normal items come out high, normal, low |
| PriorityContext.ThreeLevels | examples/custom_executor/priority.cpp:44-55 | tasks executed at low, high and normal priority run in the order high, normal, low |
| SystemExecutor.Require | examples/pipeline/System_executor.hpp:23-25 | `require(blocking)` sets `inplace` exactly for always and `synchronized` exactly for possibly |
| SystemExecutor.RequireQuery | examples/pipeline/System_executor.hpp:20-25 | a required executor reports exactly the blocking property it was required with |
| SystemExecutor.Query | examples/pipeline/System_executor.hpp:20-22 | `query(blocking)` reads the two flags; its properties are `RequireQuery` and `QueryExactlyOne` |
| SystemExecutor.QueryExactlyOne | examples/pipeline/System_executor.hpp:20-22 | every executor reports exactly one blocking property |
| SystemExecutor.ExecuteBranch | examples/pipeline/System_executor.hpp:8-15 | `execute` runs in the caller exactly when `inplace`, otherwise on a thread joined exactly when `synchronized` |
| SystemExecutor.ExecuteMatchesQuery | examples/pipeline/System_executor.hpp:8-22 | always runs in the caller, possibly waits for its thread, never leaves it running |
| PipeQueue.Queue.constructor | examples/pipeline/queue.hpp:61-67 | a new queue is empty and not stopped |
| PipeQueue.Queue.Push | examples/pipeline/queue.hpp:22-33 | `push` appends at the back |
| PipeQueue.Queue.PopAsWritten | examples/pipeline/queue.hpp:35-42 | as written, `pop` on a stopped queue answers null and keeps the items; otherwise it blocks on empty or takes the front |
| PipeQueue.Queue.Pop | examples/pipeline/queue.hpp:35-42 | the draining `pop` takes the front while there is one, and answers null only when stopped and empty |
| PipeQueue.Queue.Stop | examples/pipeline/queue.hpp:44-48 | `stop` sets the flag and keeps the items |
| PipeQueue.StopLosesItem | examples/pipeline/queue.hpp:35-48 | as written, an item pushed before `stop` is never delivered |
| PipeQueue.StopDeliversItem | examples/pipeline/queue.hpp:35-48 | with the draining `pop`, the item comes out before the null |
| PipeQueue.In.constructor | examples/pipeline/queue.hpp:80-85 | the reading end refers to its queue |
| PipeQueue.In.Pop | examples/pipeline/queue.hpp:80-85 | the reading end is the queue's `pop` as written: null once the queue is stopped, with the items kept |
| PipeQueue.Out.constructor | examples/pipeline/queue.hpp:88-94 | the writing end refers to its queue |
| PipeQueue.Out.Push | examples/pipeline/queue.hpp:88-94 | the writing end pushes on its queue |
| PipeQueue.Out.Stop | examples/pipeline/queue.hpp:88-94 | the writing end stops its queue |
| PipeQueue.MakeIn | examples/pipeline/queue.hpp:61-67 | a null queue throws "Bad pipe."; otherwise the reading end refers to the queue |
| PipeQueue.MakeOut | examples/pipeline/queue.hpp:61-67 | a null queue throws "Bad pipe."; otherwise the writing end refers to the queue |
| Pipeline.Censor | examples/pipeline/pipeline.cpp:16 | `filter` keeps a line exactly when it is at least five bytes long (or is "***" itself); any other becomes "***" |
| Pipeline.CensorCountsBytes | examples/pipeline/pipeline.cpp:16 | "日本語", nine UTF-8 bytes, is not short and is kept |
| Pipeline.ToUpper | examples/pipeline/pipeline.cpp:24 | `std::toupper` in the C locale leaves no lower-case letter and changes only 'a' to 'z', into 'A' to 'Z' |
| Pipeline.StagesCommute | examples/pipeline/pipeline.cpp:14-28 | censoring and upper-casing are each idempotent and commute |
| Pipeline.NatToString | examples/pipeline/pipeline.cpp:30-36 | a counter prints as a non-empty string of digits |
| Pipeline.ParseNatToString | examples/pipeline/pipeline.cpp:30-36 | the printed digits read back as the counter |
| Pipeline.LabelNumber | examples/pipeline/pipeline.cpp:30-36 | a label is "L", the counter, ": " and the line, and the counter reads back |
| Pipeline.Reader | examples/pipeline/pipeline.cpp:8-12 | `reader` pushes every input line, in order |
| Pipeline.Filter | examples/pipeline/pipeline.cpp:14-19 | a stopped input ends `filter` at once, with its lines still queued and nothing pushed; otherwise `filter` takes every queued line, pushes it on (short ones as "***") and waits |
| Pipeline.UpperInPlace | examples/pipeline/pipeline.cpp:23-25 | every character is upper-cased in place |
| Pipeline.UpperCopy | examples/pipeline/pipeline.cpp:23-25 | the in-place loop over a copy of the line gives the line upper-cased |
| Pipeline.Upper | examples/pipeline/pipeline.cpp:21-28 | a stopped input ends `upper` at once, with its lines still queued and nothing pushed; otherwise `upper` takes every queued line, pushes it on upper-cased and waits |
| Pipeline.Writer | examples/pipeline/pipeline.cpp:30-36 | a stopped input ends `writer` at once, printing nothing; otherwise it prints every queued line in order, labelled from its counter on, and waits |
| Pipeline.NewPipe | examples/pipeline/pipeline.hpp:38-40 | a new shared queue, empty and not stopped, with its reading and writing ends |
| Pipeline.RunPipeline | examples/pipeline/pipeline.cpp:8-36 | when every stage takes what is queued for it before its upstream stops, every input line reaches the writer once, censored, upper-cased and numbered from 0, and every stage finishes |
| Pipeline.StopFirstLosesAll | examples/pipeline/pipeline.hpp:33-69 | when every stage first pops after its upstream has stopped, the writer prints nothing and every line stays in the first queue |
| ActorFramework.Matching | examples/actor/actor_framework.hpp:152-158 | the matching handlers are a subsequence of the table |
| ActorFramework.MatchingExact | examples/actor/actor_framework.hpp:152-158 | every handler of the message's type is matched as often as registered, and no other handler is |
| ActorFramework.RemoveFirstErasesFirst | examples/actor/actor_framework.hpp:129-136 | the first matching entry, and only it, is erased |
| ActorFramework.RemoveFirstKeepsAll | examples/actor/actor_framework.hpp:129-136 | when no entry matches, nothing is erased |
| ActorFramework.RemoveFirstStep | examples/actor/actor_framework.hpp:129-136 | one loop iteration erases entry `i` or moves on |
| ActorFramework.AsWrittenNeverRemoves | examples/actor/actor_framework.hpp:126-137 | as written, `deregister_handler` never erases anything |
| ActorFramework.RegisterThenDeregister | examples/actor/actor_framework.hpp:119-137 | with the corrected id, registering then deregistering a new function restores the table |
| ActorFramework.MessageId | examples/actor/actor_framework.hpp:33-35 | `message_id` is the type of the handler's message |
| ActorFramework.IsThisFunction | examples/actor/actor_framework.hpp:43-45 | `is_this_function` compares the stored member function |
| ActorFramework.SendRoute | examples/actor/actor_framework.hpp:61-67 | `send` never runs the handler in the sender: it always goes to the shared list |
| ActorFramework.DeferSendRoute | examples/actor/actor_framework.hpp:139-148 | `defer_send` from a worker of the receiver's pool goes to that worker's private queue, from anywhere else to the shared list |
| ActorFramework.Actor.constructor | examples/actor/actor_framework.hpp:116-117 | a new actor has no handler |
| ActorFramework.Actor.RegisterHandler | examples/actor/actor_framework.hpp:119-124 | `register_handler` appends one entry |
| ActorFramework.Actor.DeregisterById | examples/actor/actor_framework.hpp:129-136 | the erase loop is proved against `RemoveFirst` |
| ActorFramework.Actor.DeregisterHandlerAsWritten | examples/actor/actor_framework.hpp:126-137 | as written, the handler table never changes |
| ActorFramework.Actor.DeregisterHandler | examples/actor/actor_framework.hpp:126-137 | with the corrected id, the first registration of `f` for `M` is erased |
| ActorFramework.Actor.CallHandler | examples/actor/actor_framework.hpp:151-159 | the handlers of the message's type are invoked in registration order |
| ActorFramework.Receiver.constructor | examples/actor/actor_framework.hpp:161-166 | a receiver registers only its message handler |
| ActorFramework.Receiver.MessageHandler | examples/actor/actor_framework.hpp:179-185 | each message is queued at the back |
| ActorFramework.Receiver.Wait | examples/actor/actor_framework.hpp:168-177 | `wait(count)` takes `count` messages from the front, or reports how many it still awaits |
| ActorRing.RingNext | examples/actor/actor.cpp:86-90 | member `i`'s address goes to member `i + 1`, wrapping to 0 |
| ActorRing.RingPrev | examples/actor/actor.cpp:86-90 | member `j` receives the address of the member before it |
| ActorRing.RingInit | examples/actor/actor.cpp:86-90 | member `j` receives the address of exactly `RingPrev(j)`, so tokens travel backwards |
| ActorRing.TokenStep | examples/actor/actor.cpp:54-62 | a positive token goes down by one; a nonzero result goes to `_next`, zero to `_final` |
| ActorRing.Back | examples/actor/actor.cpp:86-90 | stepping back along the ring stays in the ring |
| ActorRing.BackWithinTurn | examples/actor/actor.cpp:86-90 | less than a full turn back from `j` is `j - k`, wrapping past 0 |
| ActorRing.FullTurn | examples/actor/actor.cpp:86-90 | a full turn comes back to the start |
| ActorRing.TripLength | examples/actor/actor.cpp:43-63 | a token starting at T takes exactly T handler calls to reach the final actor |
| ActorRing.BackShift | examples/actor/actor.cpp:86-90 | going `k + 1` back is going one back then `k` more |
| ActorRing.Member.constructor | examples/actor/actor.cpp:20-22 | a member registers only `init_handler` |
| ActorRing.Member.InitHandler | examples/actor/actor.cpp:26-41 | `init_handler` stores `_final` and `_next`, sends token 0 to `_final` and registers `token_handler`; the deregistration as written erases nothing, so `init_handler` stays in the table |
| ActorRing.InitLeftover | examples/actor/actor.cpp:39-40 | with both handlers left in the table, a token reaches only `token_handler` and an address message only `init_handler` |
| ActorRing.Member.TokenHandler | examples/actor/actor.cpp:43-63 | `token_handler` sends what `TokenStep` says |

## Left out

- Threads, mutexes, condition variables and atomics are not modelled. Each run
  is sequential, and a wait whose condition is false is reported as an
  outcome that changes no state. Interleavings of several workers are not
  modelled.
- The `eager_mode` flag of the thread pool is not modelled; every path
  shown is the non-eager one.
- ThreadPool.StaticThreadPool.Attach runs at most `|script|` tasks. The scripted
  submissions stand in for the tasks' closures, and `OutOfScript` marks a run
  cut short. A script holds only the never + continuation submissions a task
  makes from its own worker. A task that forks (never + fork) from its worker,
  which puts a node in front of the shared list while it runs, or that makes a
  possibly/always request, which runs inline, is not expressible.
- Closures are identified by a number (`Task`), not stored as code.
- ThreadPool.StaticThreadPool.TwowayExecute does not model the returned future.
- Static_thread_pool's `executor()` property object is not modelled, nor
  `query`/`require`/`prefer` beyond the routing they select.
- The context-switch assembly (contextswitch.h) is not modelled. A switch is a
  `Transfer` value naming the contexts involved.
- The coroutine's entry function and its arguments are not modelled.
  RoutineWrapper starts after the entry has returned.
- System calls (`epoll_*`, `timerfd_*`, `getsockopt`, `getpeername`, `read`,
  `write`, `accept4`, `connect`) are inputs to the model. Their results are
  parameters and no kernel state is modelled.
- `sleep` in posix.h is not modelled, because it depends on the monotonic
  clock through `steady_clock`.
- CoConnect.Connect requires `maxRetries <= 34`. `1024 << (retries - 3)` is an
  `int` shift, which C++20 defines modulo 2^32 (`Wrap32`) while the shift count
  is below 32; from `maxRetries` 35 on the count reaches 32 and the shift is
  undefined.
- Thread-local instances (`This_thread_private_data::instance`,
  `Environment::instance`, `getPollConfig`) become explicit parameters.
- PriorityContext.Top breaks ties toward the earliest queued item.
  `std::priority_queue` leaves the order of equal items unspecified.
- The compile-time property machinery (include/cpo_detail, the type traits,
  `Is_applicable_property`) and the polymorphic executor are not modelled.
- Console output is modelled as returned lines.
- The random `jitter` and the worker threads of then.cpp are not modelled.
- The `this` capture of `cancelIf` is not modelled. It uses the upstream
  block's mutex from a continuation that may run after the future is gone.
- A `register_handler` made while `call_handler` iterates the same vector
  invalidates the iterators. The model takes a snapshot of the table.
- examples/pipeline/pipeline_stream.cpp has the same four stages as lambdas.
  The same members model both files.
- The thread wiring of examples/pipeline/pipeline.hpp is modelled only as two
  fixed schedules of the four stage threads, Pipeline.RunPipeline and
  Pipeline.StopFirstLosesAll. A stage whose `pop` would wait returns `Waiting`
  and is called again after the `stop` that wakes it.
- Pipeline.RunPipeline promises every line reaches the writer only for the
  schedule in which each stage empties its input before the upstream stops.
  With `pop` as written, lines still queued at a `stop` are never delivered
  (see Findings).
- CoExecutor.Looper.Drain does not call `Coroutine.Resume` or `Looper.Yield`.
  The bodies of the pending coroutines are not modelled, so a resume and the
  coroutine's next `yield` become re-queueing it with one yield fewer. The
  coroutine `~Looper` creates through `_executor.execute` to run the loop is
  not modelled, nor the final "done!" line.
- Future.Future.Then keeps one value type: every future and control block
  carries the same `T`, while `then<R>` may change the type.
- The `main` functions of the examples are modelled only through the
  program-level lemmas Calculate.CalculateSchedule, ThenExample.ProgramUsers,
  PriorityContext.ThreeLevels, Pipeline.RunPipeline and
  Pipeline.StopFirstLosesAll.
- The actor ring's `main` is not modelled as a whole: its members run on
  several pools at once.

## Findings

| source | as written | input that shows it | evidently intended | confidence | as-written member | corrected member |
|---|---|---|---|---|---|---|
| examples/pipeline/queue.hpp:35-42 | `pop` answers null as soon as the queue is stopped, even with items still queued | push "x", then `stop`, then `pop`: null comes back and "x" is never delivered; in the pipeline, a stage that first pops after its upstream stopped loses every line (Pipeline.StopFirstLosesAll) | deliver the queued items first and answer null only when stopped and empty | not executed | PipeQueue.StopLosesItem | PipeQueue.StopDeliversItem |
| examples/actor/actor_framework.hpp:126-137 | `deregister_handler` looks for `typeid(Message_handler<M>)`, while every handler reports `typeid(M)` | register `init_handler`, then deregister it: the table still holds it, as in every ring member after `init_handler` (ActorRing.Member.InitHandler) | compare with `typeid(M)` and erase the first registration of the function | not executed | ActorFramework.AsWrittenNeverRemoves | ActorFramework.RegisterThenDeregister |
