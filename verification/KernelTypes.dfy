/** The data the kernel works on: task descriptors, system calls, requests, and the
    history of what happened so far. */
module KernelTypes {

  import opened Bytes
  import opened Options
  import opened Tables

  const MAX_TASKS: nat := 64
  const PRIORITIES: nat := 64
  const MAX_EVENTS: nat := 16

  datatype TaskState =
    Ready | Active | Exited | SendBlocked | ReceiveBlocked | ReplyBlocked | EventBlocked

  /** A task descriptor without its queue links. `slot` is the word at the saved stack
      pointer, which becomes the result of the task's system call. `outbox` is the
      message a blocked sender points to; `from`, `inbox` and `reply` are the caller's
      own buffers that Receive and Send hand to the kernel. */
  datatype Task = Task(
    tid: nat, priority: nat, parent: Option<nat>, state: TaskState, slot: int,
    outbox: seq<Byte>, msgLen: nat, repLen: nat,
    from: nat, inbox: seq<Byte>, reply: seq<Byte>)

  datatype Call =
    | Pass
    | Create(priority: int)
    | MyTid
    | MyParentTid
    | Send(to: nat, msg: seq<Byte>, repLen: nat)
    | Receive(len: nat)
    | Reply(target: nat, rep: seq<Byte>)
    | AwaitEvent(event: int)
    | Exit
    | Quit

  /** What the processor comes back with after a task was activated. */
  datatype Request = Syscall(call: Call) | Interrupt(source: nat, value: int)

  /** What can be observed of the kernel from outside. */
  datatype Event =
    | Called(who: nat, call: Call)
    | Accepted(from: nat, to: nat, msg: seq<Byte>)
    | Taken(from: nat, to: nat, msg: seq<Byte>)
    | Dropped(from: nat, to: nat, msg: seq<Byte>)
    | Answered(who: nat, server: nat, rep: seq<Byte>)
    | Woken(who: nat, source: nat, value: int)
    | Returned(who: nat, value: int)

  /** All events so far, the latest outermost. */
  datatype History = Boot | Then(past: History, event: Event)

  function Length(h: History): nat {
    if h.Boot? then 0 else Length(h.past) + 1
  }

  /** The event number `i`, counted from the start. */
  function At(h: History, i: nat): Event
    requires i < Length(h)
  {
    if i == Length(h.past) then h.event else At(h.past, i)
  }

  /** The kernel: descriptors, the three families of queues, the task taken from the
      ready queues, the tasks that were left in no queue by an error branch, and the
      history. Descriptors from `nextFree` on are whatever was in memory. */
  datatype Kernel = Kernel(
    tds: seq<Task>, nextFree: nat,
    ready: Table, sendq: Table, waiting: Table,
    running: Option<nat>, stranded: set<nat>, halted: bool, log: History)
}
