# Verified model of a message-passing microkernel

This project models, in Dafny 4.11, a small ARM message-passing kernel and the servers that
run on it, and proves what they promise over every run. It has three layers.

1. **Data structures** on the heap: the intrusive linked queue, the 64-level bitmap
   scheduler, the event wait queues and the modular ring buffer. Each is a class whose
   methods are proved to do what a plain sequence (or table of sequences) would do.
2. **The kernel** as one state machine: every system call and interrupt that `handle`
   dispatches, and the main loop. `KernelSpec.dfy` gives the operations as functions on the
   state; `Kernel.dfy` is the imperative kernel on the heap structures, proved equal to them
   step by step; the other `Kernel*.dfy` files prove what holds in every state of every run.
3. **The servers** as step systems over that message passing: the clock server, the I/O
   server with its transmit and CTS notifiers, and the name server. The integer printer and
   reader of `bwio.c` and two string functions complete the model.

`dafny verify dfyconfig.toml` checks the whole project.

## How to read it

The kernel keeps a history of what can be observed from outside: calls, accepted messages,
messages taken or thrown away, replies, wake-ups and returned values. `KernelHistory.dfy`
says, from the history alone, how far each task's current call has come and which events
may happen next (`Legal`, `Allowed`). The invariant ties descriptors and queues to that
account, so that the main theorems speak about whole histories and not about one function:

* every created task is in exactly one place, in every reachable state
  (`KernelRuns.ExactlyOnePlace`);
* messages to a receiver are taken in the order they were accepted, each once and
  unchanged (`KernelRuns.FifoMessages`);
* an accepted sender runs again only after its message was taken and answered
  (`KernelRuns.Rendezvous`), and every task that is activated finds the result and the
  buffers of its own last call (`KernelRuns.ActivatedWithOwnResult`);
* nobody overtakes within a priority (`KernelOrder.KeepsItsTurn`, `KernelOrder.RunsInTurn`);
* because of all that, the clock server's clients can never exhaust its 64 entries
  (`ClockClients.ClientsArePolite`).

What the kernel relies on and does not check is stated once, in `KernelSpec.Enabled`: a tid
below 64 that was created or whose descriptor does not hold it by accident, and a Reply of
the right size only to a REPLY_BLOCKED task. Descriptors that were never initialised hold
arbitrary values. What happens without that second condition is proved as well, on the
linked queues themselves (`Kernels.Machine.KernelReply`, `KernelDelivery.ReplySafeIff`,
`KernelDelivery.ReplyKeepsRulesIff`).

## Where the code differs from what one expects

* `kernel_reply` does not look at its target's state, and `queue_put` does not look whether
  a node is linked already: a node that is put in again becomes the last of its queue, the
  nodes behind it drop out of the chain, and `elements` still grows
  (`Queues.Queue.Put`). A queue like that makes a later `queue_get` follow a null pointer
  (`Queues.DrainRelinked`). So a Reply with agreeing sizes keeps the ready queues proper
  queues exactly when the target is another task that is in none of them
  (`Kernels.Machine.KernelReply`); otherwise exactly the tasks behind the target are lost
  (`KernelDelivery.ReplyLosesExactly`). A target that waits in a send queue or an await queue
  ends up in two queues (`KernelDelivery.ReplyTwoPlacesIff`). All is well exactly when the
  target is another task that is in no queue (`KernelDelivery.ReplySafeIff`), and the
  rendezvous rules are kept exactly when it is REPLY_BLOCKED
  (`KernelDelivery.ReplyKeepsRulesIff`). `Kernels.ReplyToReadyTask` is a concrete case.
* A failed Create and a Receive that asks for another size each leave one task in no queue.
  The model follows these tasks in `stranded` (`KernelRuns.StrandedOnlyByErrors`).
* A delay is cut short exactly when the tick counter plus the delay exceeds 2^32, and is an
  error when the sum does not fit a positive int
  (`ClockTheorems.DelayOutcome`, `ClockTheorems.DelayCutShort`).
* The clock server releases at most one sleeper per tick; a due sleeper at position p is
  released by the (p+1)-th tick (`ClockTheorems.DueReleased`), so an accepted delay of n ends
  after n+1 to n+64 ticks (`ClockTheorems.NoEarlyWake`, `ClockTheorems.DelayEnds`). Its sorted insert does not
  update `back`, so nothing proved about that list mentions `back`.
* `Delay` and `DelayUntil` are documented to return -2 for a bad delay but test the type of
  the message they sent instead of the reply; the model states the error about the reply.
* A second reader of the I/O server overwrites the first; every request is answered once
  except the Read of the task that waits and the Reads that were overtaken
  (`IoTheorems.AnsweredOrWaiting`, `IoTheorems.SecondReaderOvertakes`).
* `bwa2i` accepts a digit equal to the base (`digit > base` ends the number, not
  `digit >= base`). It gets a printed number back exactly when it stops right behind it, or
  when the number is 0 and only zeros follow (`Bwio.ReadBackIff`, `Bwio.ReadBackFails`); behind
  the NUL that `bwui2a` writes it always does (`Bwio.PrintThenRead`).
* The reply 1 of the name server means both "not registered" and "registered by task 1"
  (`NameServers.ReplyOneIff`).

## Modelling decisions

Integers are unbounded in Dafny, so 32-bit arithmetic is written out: the tick counter, the
deadline (`ClockSpec.ToInt`, `ClockSpec.ToUnsigned`), the multiplication in `bwui2a`, and the
negation in `bwi2a` (which for INT_MIN is taken as two's complement). The 64-bit ready
bitmap is a number below 2^64 whose bits are its binary digits. Messages and buffers are
byte sequences; a pointer into a caller's buffer becomes a field of its descriptor. An
intrusive node is an object, and the table of all queues over one pool of nodes is one class.
Activation is "the processor comes back with any request"; hardware registers, the CTS flag
and received bytes are inputs. The servers' messages have the size they expect.

## Model

| member | source | states |
|---|---|---|
| `Queues.Queue.constructor` | src/queue/queue.c:9-13 | a new queue is linked and holds nothing |
| `Queues.Queue.Init` | src/queue/queue.c:9-13 | whatever it held before, the queue is empty and linked |
| `Queues.Queue.Put` | src/queue/queue.c:15-30 | a new node is appended, also after a drain that left `back` dangling; a node of this queue becomes the last one, everybody behind it leaves the chain and `elements` grows; NULL is refused with 1 |
| `Queues.Queue.PutFront` | src/queue/queue.c:32-47 | the node is prepended, even when `back` is stale; NULL is refused with 1 |
| `Queues.Queue.Get` | src/queue/queue.c:49-61 | the front's data is returned, the front leaves the chain and is unlinked; None exactly on an empty queue; relies only on `front` not being null while `elements` is positive |
| `Queues.Queue.Peek` | src/queue/queue.c:63-69 | the front's data, or None exactly on an empty queue |
| `Queues.Queue.Size` | src/queue/queue.c:71-73 | the length of the chain |
| `Queues.Queue.Empty` | src/queue/queue.c:75-77 | true exactly when the chain is empty |
| `Queues.Queue.Undisturbed` | src/queue/queue.c:15-61 | operations that leave a queue's header and nodes alone leave the queue linked |
| `Queues.DrainRelinked` | src/queue/queue.c:15-61 | a proper queue in which a linked node was put again comes, by gets alone, to a null `front` with `elements` positive |
| `QueueTables.QueueTable.Put` | src/queue/queue.c:15-30 | with many queues over one pool of nodes: only queue k changes, by appending t or by being cut behind t, and the family stays proper iff t was not in queue k |
| `QueueTables.QueueTable.Get` | src/queue/queue.c:49-61 | only queue k changes, by losing its front, which is returned |
| `QueueTables.QueueTable.Reset` | src/queue/queue.c:9-13 | initialising one empty queue leaves all queues as they were |
| `Bitmap.LeadingZeroes` | src/scheduler/scheduler.c:10-39 | for every non-zero 64-bit word, the branch-and-shift scan returns the lowest set bit |
| `Schedulers.Scheduler.Get` | src/scheduler/scheduler.c:48-63 | the oldest task of the smallest non-empty priority leaves its queue; bit p stays set iff queue p is non-empty; None iff all are empty |
| `Schedulers.Scheduler.Put` | src/scheduler/scheduler.c:65-75 | the task becomes READY and is put in the queue of its priority, whether it is in there or not; the queues stay proper iff it was not; the bitmap agrees in any case |
| `Schedulers.Scheduler.Empty` | src/scheduler/scheduler.c:77-79 | true exactly when all 64 queues are empty |
| `EventHandlers.EventHandler.AddTask` | src/event_handler/event_handler.c:12-23 | the task joins the end of that event's queue as EVENT_BLOCKED; a bad event is refused with -1 and changes nothing |
| `EventHandlers.EventHandler.HandleEvent` | src/event_handler/event_handler.c:25-37 | terminates; all waiters of the event are delivered in closed form, other queues and descriptors stay |
| `EventHandlers.EventHandler.Empty` | src/event_handler/event_handler.c:39-46 | true exactly when nobody waits for any event |
| `RingBuffers.RingBuffer.Get` | src/ringbuffer/ringbuffer.c:13-21 | returns the slot of the oldest byte, which leaves the contents; None exactly when empty |
| `RingBuffers.RingBuffer.Put` | src/ringbuffer/ringbuffer.c:23-31 | appends unless size-1 bytes are held, and never overwrites the slot the last Get returned |
| `RingBuffers.RingBuffer.PutN` | src/ringbuffer/ringbuffer.c:33-44 | all bytes are appended in order or none, exactly by whether they fit |
| `RingBuffers.RingBuffer.Empty` | src/ringbuffer/ringbuffer.c:46-48 | equal indices mean empty contents |
| `RingBuffers.RingBuffer.Full` | src/ringbuffer/ringbuffer.c:50-52 | true exactly when size-1 bytes are held |
| `RingBuffers.RingBuffer.Size` | src/ringbuffer/ringbuffer.c:54-64 | the length of the contents, for all index positions |
| `Kernels.Machine.constructor` | src/main.c:518-529 | empty queues over descriptors that hold arbitrary memory |
| `Kernels.Machine.Boot` | src/main.c:513-527 | the heap kernel's state is the initial state of every run |
| `Kernels.Machine.InitTask` | src/task_descriptor/task_descriptor.c:5-27 | exactly one descriptor is set up; its message parameters keep what memory held |
| `Kernels.Machine.KernelCreate` | src/main.c:147-164 | new task before caller in their ready queues; both error returns leave the caller in no queue |
| `Kernels.Machine.KernelSend` | src/main.c:190-225 | bad tid, size mismatch, direct hand-over or joining the send queue, with the whole new state |
| `Kernels.Machine.KernelReceive` | src/main.c:227-252 | the oldest sender is collected or dropped for its size, or the caller waits, with the whole new state |
| `Kernels.Machine.KernelReply` | src/main.c:254-276 | new state and result for every target, READY ones included; all queues stay proper iff the target is another task in no ready queue; the count of every ready queue; nobody is in two queues as well iff the target is in no queue |
| `Kernels.Machine.KernelAwait` | src/main.c:278-308 | the caller waits for the event, or gets -1 |
| `Kernels.Machine.KernelExit` | src/main.c:166-169 | EXITED, and the loop stops exactly when nothing is ready |
| `Kernels.Machine.Deliver` | src/main.c:401-443 | the heap event handler computes the draining of one await queue |
| `Kernels.Machine.Perform` | src/main.c:350-387 | each system call code reaches its operation; new state and result are the specified ones |
| `Kernels.Machine.Handle` | src/main.c:339-452 | the heap kernel refines the state machine for every request |
| `Kernels.Machine.Turn` | src/main.c:554-574 | one turn of the loop is Dispatch then Handle, and keeps the whole invariant |
| `Kernels.Machine.Loop` | src/main.c:554-574 | for any sequence of requests, one turn for every request until the loop is over: each turn is a Dispatch and a Handle of that request, and the last state is the heap kernel's |
| `KernelRuns.TurnsReachable` | src/main.c:554-574 | all states between the turns of the loop are states of a run |
| `Kernels.Launch` | src/main.c:545-574 | main from the set-up to the end of the loop: one turn for every request until it is over, through states of a run only, so every theorem about runs holds of the heap kernel |
| `Kernels.ReplyToReadyTask` | src/main.c:254-276 | a concrete run on the heap: after boot the first task replies to the idle task, whose ready queue then holds it once and counts two |
| `KernelInvariant.ReturnGood` | src/main.c:171-188 | calls that return at once keep placement, FIFO and the agreement with the history |
| `KernelInvariant.CreateGood` | src/main.c:147-164 | Create keeps the invariant on all three branches |
| `KernelInvariant.SendGood` | src/main.c:190-225 | Send keeps the invariant on all four branches |
| `KernelInvariant.ReceiveGood` | src/main.c:227-252 | Receive keeps the invariant on all three branches |
| `KernelSteps.ReplyGood` | src/main.c:254-276 | Reply keeps the invariant, given a target that is REPLY_BLOCKED when sizes agree |
| `KernelSteps.AwaitGood` | src/main.c:278-308 | AwaitEvent keeps the invariant |
| `KernelSteps.ExitGood` | src/main.c:166-169 | Exit keeps the invariant |
| `KernelSteps.WakeAllRunning` | src/event_handler/event_handler.c:25-37 | draining an await queue keeps the invariant around the interrupted task |
| `KernelSteps.HandleKeepsInv` | src/main.c:339-452 | whatever is requested, the invariant holds afterwards |
| `KernelRecords.CreateRecords` | src/main.c:155-163 | parents, priorities and buffers of all tasks still agree with the history: a new task has its creator as parent and the priority it was given |
| `KernelRecords.SendRecords` | src/main.c:206-222 | parents, priorities and buffers of all tasks still agree with the history: a receiver that was handed a message has this sender and this message |
| `KernelRecords.ReceiveRecords` | src/main.c:229-249 | parents, priorities and buffers of all tasks still agree with the history: the caller has the oldest sender's tid and message, if it took one |
| `KernelRecords.ReplyRecords` | src/main.c:264-275 | parents, priorities and buffers of all tasks still agree with the history: the target has the reply |
| `KernelRuns.RunInv` | src/main.c:545-574 | the whole invariant holds in every state of every run |
| `KernelRuns.ExactlyOnePlace` | src/main.c:147-308 | in every reachable state each created task is in exactly one place, and it is the one its state names |
| `KernelRuns.FifoMessages` | src/main.c:190-252 | accepted messages == taken messages ++ send queue, in order and unchanged, for every receiver; a waiting receiver has an empty queue |
| `KernelEvents.AwaitOrder` | src/main.c:278-308 | for every event and every run, the tasks that called AwaitEvent are, in the order of the calls, those it woke and then those in its await queue |
| `KernelRuns.Rendezvous` | src/main.c:206-275 | an accepted sender is READY again only if its message was taken and then answered |
| `KernelRuns.ActivatedWithOwnResult` | src/main.c:389-449 | an activated task finds the result of its own last call in its slot, and that call's message or reply in its buffers |
| `KernelRuns.OneDelayPerTask` | src/main.c:212-241 | between two accepted sends of a task there is a reply to it |
| `KernelRuns.DispatchPicks` | src/scheduler/scheduler.c:48-63 | the task that gets the processor is the oldest of the best priority among all ready tasks |
| `KernelRuns.StrandedOnlyByErrors` | src/main.c:147-234 | a request strands exactly the caller of a failed Create or the sender of a mismatched Receive |
| `KernelOrder.HandleReadies` | src/main.c:339-452 | a request only appends to ready queues, and exactly whom, at which priority and in which order |
| `KernelOrder.KeepsItsTurn` | src/main.c:554-574 | over any run, a ready task moves up one place per task taken from its queue and by nothing else |
| `KernelOrder.RunsInTurn` | src/main.c:554-574 | the (k+1)-st task taken from a ready queue is the one that was at position k |
| `KernelOrder.StopsIff` | src/main.c:554-574 | the loop ends exactly on Quit, on an Exit with nothing ready, or with nothing to pick |
| `HistoryTheorems.AcceptedThenAnswered` | src/main.c:190-276 | in any legal history, an accepted sender that is between calls was taken and then answered |
| `HistoryTheorems.OneOutstandingSend` | src/main.c:212-241 | in any legal history, two accepted sends of one task have a reply between them |
| `HistoryTheorems.OwnResult` | src/main.c:389-389 | the value that counts as a task's result is the outcome of its own last call, by the kind of that call |
| `HistoryTheorems.OnlyTasksCall` | src/main.c:151-163 | never more than 64 tasks, and only created tasks are in a call |
| `KernelDelivery.WakeAllDelivers` | src/event_handler/event_handler.c:25-37 | only one await queue is emptied; each waiter is appended once, in waiting order, with the event's value; nobody else changes |
| `KernelDelivery.InterruptDelivers` | src/main.c:401-449 | the interrupted task goes behind all woken waiters of its priority, its slot untouched |
| `KernelDelivery.ReplySafeIff` | src/main.c:254-276 | a Reply with agreeing sizes goes to another task outside the ready queues and leaves nobody in two queues iff its target is another task in no queue at all |
| `KernelDelivery.ReplyTwoPlacesIff` | src/main.c:254-276 | it leaves somebody in two queues iff its target is another task that waits in a send queue or an await queue |
| `KernelDelivery.ReplyLosesExactly` | src/main.c:272-273 | who is in which ready queue afterwards: exactly the tasks that stood behind the target are lost |
| `KernelDelivery.ReplyKeepsRulesIff` | src/main.c:254-276 | it keeps the rendezvous rules iff the target is REPLY_BLOCKED |
| `ClockSpec.Position` | src/clock_server/clock_server.c:144-164 | the insert position: everybody before it is due no later, the next one is due later |
| `ClockTheorems.FreeEntry` | src/clock_server/clock_server.c:86-142 | the free list is not empty when an awake task asks |
| `ClockTheorems.InsertSorted` | src/clock_server/clock_server.c:144-164 | the list stays sorted by deadline, equal deadlines by arrival |
| `ClockTheorems.StepKeepsValid` | src/clock_server/clock_server.c:101-171 | every request keeps list sorted, entries partitioned between the two lists, and tids different |
| `ClockTheorems.DelayOutcome` | src/clock_server/clock_server.c:121-165 | for every counter value and delay: error, exact deadline, or answered at once |
| `ClockTheorems.DelayUntilOutcome` | src/clock_server/clock_server.c:129-165 | for every counter value and time: error, answered at once with the time, or one new sleeper with exactly that deadline |
| `ClockTheorems.BlockAdds` | src/clock_server/clock_server.c:139-163 | going to sleep adds one sleeper with that client and deadline and nobody else |
| `ClockTheorems.TickOutcome` | src/clock_server/clock_server.c:102-116 | for every state: the counter modulo 2^32, who is answered with what and in which order, and both lists, by whether the front is due |
| `ClockTheorems.Conversions` | src/clock_server/clock_server.c:109-136 | the conversions between int and 32 bits unsigned lose nothing |
| `ClockTheorems.DelayCutShort` | src/clock_server/clock_server.c:128-137 | a delay ends at once iff counter plus delay exceeds 2^32 |
| `ClockTheorems.DelayCutShortExample` | src/clock_server/clock_server.c:128-137 | a concrete delay of 5 that ends at once |
| `ClockTheorems.LandsBehind` | src/clock_server/clock_server.c:129-163 | a new sleeper lines up behind everybody who is due |
| `ClockTheorems.DueMovesUp` | src/clock_server/clock_server.c:102-165 | a due sleeper moves up once per tick, is not overtaken and not answered before its turn, over any requests |
| `ClockTheorems.DueReleased` | src/clock_server/clock_server.c:102-116 | a due sleeper at position p is answered on exactly the (p+1)-th tick, within 64, with the time |
| `ClockTheorems.NoEarlyAnswer` | src/clock_server/clock_server.c:106-115 | over any run, a sleeper is answered only when the counter has passed its deadline |
| `ClockTheorems.NoEarlyWake` | src/clock_server/clock_server.c:109-137 | an accepted Delay of n is answered only after n+1 ticks or more |
| `ClockTheorems.NoEarlyWakeUntil` | src/clock_server/clock_server.c:106-165 | a DelayUntil is answered only once the counter has passed its time |
| `ClockTheorems.WokenInTime` | src/clock_server/clock_server.c:102-165 | over any requests, a sleeper is answered at most 63 ticks after the tick that passes its deadline |
| `ClockTheorems.DelayEnds` | src/clock_server/clock_server.c:102-165 | an accepted Delay of n is answered within n+64 ticks |
| `ClockTheorems.DelayUntilEnds` | src/clock_server/clock_server.c:102-165 | an accepted DelayUntil is answered at most 63 ticks after the tick that passes its time |
| `ClockTheorems.TimeTells` | src/clock_server/clock_server.c:117-120 | Time is answered with the number of ticks since the start, modulo 2^32, read as an int |
| `ClockTheorems.CounterCountsTicks` | src/clock_server/clock_server.c:104-120 | the counter is the number of ticks modulo 2^32 over any run |
| `ClockTheorems.AnsweredOrAsleep` | src/clock_server/clock_server.c:96-172 | over any run, each request is answered exactly once or its sender still sleeps |
| `ClockTheorems.AnsweredInReplies` | src/clock_server/clock_server.c:96-172 | a task is answered in a run iff one of the answers the server gives goes to it |
| `ClockTheorems.StartValid` | src/clock_server/clock_server.c:84-92 | the initial lists satisfy the invariant |
| `ClockClients.SleepersHeld` | src/clock_server/clock_server.c:101-142 | in any legal kernel history, whoever sleeps or is owed an answer is a task whose message was taken and not answered, and is held once |
| `ClockClients.ClientsArePolite` | src/main.c:212-241 | in every run of the kernel, whoever the clock server hears from is awake and finds a free entry |
| `ClockServers.Server.constructor` | src/clock_server/clock_server.c:84-92 | the server starts with nobody asleep and all 64 entries on the free list, as the step system does |
| `ClockServers.Server.Insert` | src/clock_server/clock_server.c:144-164 | the pointer walk puts the entry at the specified position of the linked list |
| `ClockServers.Server.OnTick` | src/clock_server/clock_server.c:102-116 | the heap server's new state and replies are the step system's |
| `ClockServers.Server.OnDelayUntil` | src/clock_server/clock_server.c:129-165 | the heap server's new state and replies are the step system's |
| `ClockServers.Server.OnDelay` | src/clock_server/clock_server.c:121-165 | the heap server's new state and replies are the step system's |
| `ClockServers.Server.Serve` | src/clock_server/clock_server.c:96-172 | every request of an awake task is served as specified, and the invariant holds afterwards |
| `ClockServers.Server.ServeAll` | src/clock_server/clock_server.c:96-172 | for any sequence of requests of awake tasks, the heap server takes one step for each and gives its answers |
| `IoTheorems.OutputConserved` | src/io_server/io_server.c:139-281 | bytes of all writes so far == written ++ unsent in the notifier ++ output ring, after any actions in any interleaving |
| `IoTheorems.NoStuckBytes` | src/io_server/io_server.c:226-281 | a parked notifier means all bytes are written, a waiting reader that all bytes are delivered; bytes that came in == bytes in replies to clients ++ input ring |
| `IoTheorems.OutputProgress` | src/io_server/io_server.c:139-281 | while a byte is unwritten the transmit side can go on unless it waits for CTS, and each of its actions leaves less to do |
| `IoTheorems.PanicsIff` | src/io_server/io_server.c:242-260 | over any run, the server gives up iff at that action more bytes are under way, counted from outside, than the 127 a ring holds |
| `IoTheorems.ReadAnswered` | src/io_server/io_server.c:227-241 | over any run, a Read is answered to the reading task with the next received bytes, or that task waits |
| `IoTheorems.WriteAnswered` | src/io_server/io_server.c:242-257 | a Write is answered once, to the writing task; a parked notifier gets the bytes first |
| `IoTheorems.RxAnswered` | src/io_server/io_server.c:258-269 | a received byte is answered to the receive notifier, after it was given to the reader that waits |
| `IoTheorems.TxAnswered` | src/io_server/io_server.c:270-281 | the transmit notifier gets the next accepted bytes, at most 31, and no answer iff all are written |
| `IoTheorems.AnsweredOrWaiting` | src/io_server/io_server.c:226-289 | over any run and for every client: answers + overtaken reads + (1 if it waits) == requests |
| `IoTheorems.SecondReaderOvertakes` | src/io_server/io_server.c:228-231 | two readers in a row on an empty ring: the first is never answered, the second gets the byte |
| `IoTheorems.FlowControl` | src/io_server/io_server.c:71-151 | bytes written <= tokens taken <= 1 + wake-ups that saw CTS <= tokens taken + 1, counted from the actions |
| `IoTheorems.NotClear` | src/io_server/io_server.c:86-92 | a wake-up that did not see CTS changes nothing and sends no token |
| `IoServers.Drain` | src/io_server/io_server.c:235-237 | moves the oldest bytes out of a ring, in order, up to a limit |
| `IoServers.IoServer.Read` | src/io_server/io_server.c:227-241 | state and reply as specified |
| `IoServers.IoServer.Write` | src/io_server/io_server.c:242-257 | state and replies as specified, or the panic |
| `IoServers.IoServer.Rx` | src/io_server/io_server.c:258-269 | state and replies as specified, or the panic |
| `IoServers.IoServer.Tx` | src/io_server/io_server.c:270-281 | state and reply as specified |
| `IoServers.IoServer.Handle` | src/io_server/io_server.c:226-289 | the heap server's new state and replies are the system's for any action |
| `IoServers.IoServer.ServeAll` | src/io_server/io_server.c:221-289 | for any run of the system the heap server ends in its state, makes its replies, and panics iff it does |
| `CStrings.Strncpy` | src/cstdlib/string.c:5-16 | character by character: the source up to NUL or count, then NULs up to count; nothing behind it changes |
| `CStrings.Strncmp` | src/cstdlib/string.c:18-29 | zero exactly when the strings agree up to the first NUL or count characters; otherwise the sign of the first difference |
| `CStrings.PaddedRoundTrip` | src/cstdlib/string.c:5-16 | reading a padded copy back gives the string, with or without room for a NUL |
| `NameServers.LookupLatest` | src/name_server/name_server.c:112-129 | lookup gives the latest registration, and nothing iff there is none |
| `NameServers.ReplyOneIff` | src/name_server/name_server.c:153-160 | reply 1 means "not registered" or "registered by task 1", and exactly the former if task 1 never registers |
| `NameServers.WhoAfterRun` | src/name_server/name_server.c:138-171 | after any run of requests WHO answers with the sender of the latest registration |
| `NameServers.WhoUnregistered` | src/name_server/name_server.c:153-160 | before any registration of a name the answer is 1 |
| `NameServers.NamesMeetIff` | src/name_server/name_server.c:37-129 | through both copies, two names meet iff they agree as strings of at most 12 characters |
| `NameServers.MeetByCharacter` | src/cstdlib/string.c:18-29 | two names agree iff they have the same first 12 characters, or the same ones up to a NUL in both |
| `NameServers.NameMap.constructor` | src/name_server/name_server.c:83-95 | the map starts without registrations |
| `NameServers.NameMap.Insert` | src/name_server/name_server.c:99-108 | the linked list holds one registration more, as the latest |
| `NameServers.NameMap.Find` | src/name_server/name_server.c:112-129 | the walk finds the entry of the latest registration, or nothing iff there is none |
| `NameServers.NameMap.Serve` | src/name_server/name_server.c:138-170 | the reply and the registrations after one request |
| `NameServers.NameMap.ServeAll` | src/name_server/name_server.c:138-171 | for any sequence of requests with at most 256 registrations, every WHO is answered with the sender of the latest registration of the name before it, or 1 if there is none |
| `Bwio.HighestPower` | src/bwio/bwio.c:173-173 | terminates without 32-bit overflow, with the weight of the first digit |
| `Bwio.A2dReadsTable` | src/bwio/bwio.c:147-152 | the value of every character: its place in "0123456789abcdef", or that of the small letter for a capital one, and -1 for all others |
| `Bwio.DigitChar` | src/bwio/bwio.c:179-179 | the character printed for every digit is its entry in "0123456789abcdef" |
| `Bwio.Ui2a` | src/bwio/bwio.c:168-184 | for every 32-bit number and base 2 to 16 the buffer holds the canonical digits from the table and a NUL |
| `Bwio.I2a` | src/bwio/bwio.c:186-192 | for every int the sign, canonical digits and NUL fit in 12 characters |
| `Bwio.CanonicalUnique` | src/bwio/bwio.c:168-184 | there is only one canonical digit string for a number |
| `Bwio.A2i` | src/bwio/bwio.c:154-166 | the value of the longest accepted prefix, the character behind it and how many characters were read |
| `Bwio.ReadBackIff` | src/bwio/bwio.c:154-184 | for any text that begins with the printed digits: where the reader stops, and that it gets the number iff it stops right behind them or the number is 0 and only zeros follow |
| `Bwio.PrintThenRead` | src/bwio/bwio.c:154-184 | bwui2a followed by bwa2i gives back every number that fits an int, in every base from 2 to 16 |
| `Bwio.ReadBackFails` | src/bwio/bwio.c:159-163 | "12a" in base 10 is read as 130 |

## Left out

- `kernel_panic` and everything after it: it clears the bitmap without the queues, so the invariants stop there; the I/O server's own panics end its run.
- `activate`, exception vectors, stack frames and inline assembly: machine level; a task's next request is arbitrary.
- UART, VIC and timer registers, enabling of interrupts in `kernel_await_event`: hardware, taken as inputs.
- The idle task's metrics and its exit flag: clock reads that affect no queue.
- Server shutdown paths and EXIT messages: they drop some clients on purpose and do not affect the main loops.
- Receive errors inside the servers: messages have the expected size, so the clock server's reuse of an old message after a failed Receive is not modelled.
- The wrappers `Delay`, `DelayUntil`, `Putstr`, `WhoIs` and the like: thin message senders; the 31-byte limit of `Putstr` appears as a condition on write actions.
- The notifiers' loops as code: their steps are actions of the I/O system, and the CTS notifier's artificial delay of one tick is part of one action.
- `queue_mtf`: unused and marked broken in the source.
- `bwformat`, `bwputc`, `bwgetc` and the other formatted or busy-wait output: device access.
- `memchr`, `memcmp`, `memset`, `memcpy`: simple loops; copying is sequence assignment.
- QueueTables.QueueTable.Put: requires that the task is in no other queue of the family. In the kernel a task's ready node is only ever put in the queue of its priority, and a running task is in no send or await queue.
- Schedulers.Scheduler.Put: likewise requires that the task is in no ready queue of another priority; priorities never change.
- Kernels.Machine.KernelSend: requires a tid below 64 and that an uninitialised descriptor does not hold its own index by accident, because the source reads past the table or trusts arbitrary memory there.
- Kernels.Machine.KernelReply: requires the same of its tid; its target's state is arbitrary.
- Kernels.Machine.Perform: requires what `Enabled` says, so Replies to tasks that are not REPLY_BLOCKED are covered by KernelReply only; after a bad one the queues are no proper queues and no later step is modelled.
- Kernels.Machine.Handle: requires what `Enabled` says, for the same reason.
- NameServers.NameMap.Insert: requires fewer than 256 registrations, because the source takes the next entry without checking that there is one.
- NameServers.NameMap.Serve: requires the same of a registration request.
- NameServers.NameMap.ServeAll: requires at most 256 registrations in all.
- KernelSteps.ReplyGood: requires what `Enabled` says about the target, because the source does not check it; the exact conditions are in ReplySafeIff and ReplyKeepsRulesIff.
- Bwio.A2i: requires that the number read fits an int, because overflow of a signed int is undefined in the source language, and that the text has a character behind the number.
- ClockClients.ClientsArePolite: assumes that the clock server makes the replies its steps decide on, in that order, and that nobody else replies to a task whose message it holds, because the kernel lets any task reply to any other.
- ClockClients.SleepersHeld: assumes the same.
