/** The kernel's operations as functions on its state. */
module KernelSpec {

  import opened Bytes
  import opened Options
  import opened Tables
  import opened KernelTypes

  predicate Shape(s: Kernel) {
    && |s.tds| == MAX_TASKS && |s.ready| == PRIORITIES && |s.sendq| == MAX_TASKS && |s.waiting| == MAX_EVENTS
    && 2 <= s.nextFree <= MAX_TASKS
    && forall t: nat :: t < s.nextFree ==> s.tds[t].tid == t && s.tds[t].priority < PRIORITIES
  }

  predicate Created(s: Kernel, t: nat) {
    Shape(s) && t < s.nextFree
  }

  // ----- Primitive moves -----

  function Note(s: Kernel, e: Event): Kernel {
    s.(log := Then(s.log, e))
  }

  function SetState(s: Kernel, t: nat, st: TaskState): (r: Kernel)
    requires Created(s, t)
    ensures Shape(r) && r.nextFree == s.nextFree
  {
    s.(tds := s.tds[t := s.tds[t].(state := st)])
  }

  function SetSlot(s: Kernel, t: nat, v: int): (r: Kernel)
    requires Created(s, t)
    ensures Shape(r) && r.nextFree == s.nextFree
  {
    s.(tds := s.tds[t := s.tds[t].(slot := v)])
  }

  /** scheduler_put on a task that is in no ready queue. */
  function PutReady(s: Kernel, t: nat): (r: Kernel)
    requires Created(s, t)
    ensures Shape(r) && r.nextFree == s.nextFree
  {
    SetState(s, t, Ready).(ready := Push(s.ready, s.tds[t].priority, t))
  }

  /** scheduler_put in general: on a task that is in its ready queue already, that queue is
      cut behind it. */
  function Requeue(s: Kernel, t: nat): (r: Kernel)
    requires Created(s, t)
    ensures Shape(r) && r.nextFree == s.nextFree
  {
    SetState(s, t, Ready).(ready := Link(s.ready, s.tds[t].priority, t))
  }

  function PopSend(s: Kernel, t: nat): (r: Kernel)
    requires Created(s, t) && s.sendq[t] != []
    ensures Shape(r) && r.nextFree == s.nextFree
  {
    s.(sendq := Pop(s.sendq, t))
  }

  // ----- Kernel calls: the new state and the value for the caller's slot -----

  /** A call that is over at once: the caller goes back to its ready queue. */
  function Return(s: Kernel, t: nat, v: int): (r: (Kernel, int))
    requires Created(s, t)
    ensures Created(r.0, t) && r.0.running == s.running && r.0.halted == s.halted
  {
    (Note(PutReady(s, t), Returned(t, v)), v)
  }

  /** kernel_create returns -1 or -2 without putting its caller back in a queue. */
  function Strand(s: Kernel, t: nat, v: int): (r: (Kernel, int))
    requires Created(s, t)
    ensures Created(r.0, t) && r.0.running == s.running && r.0.halted == s.halted
  {
    (Note(s.(stranded := s.stranded + {t}), Returned(t, v)), v)
  }

  function NewTask(s: Kernel, t: nat, priority: nat): (r: Kernel)
    requires Shape(s) && s.nextFree < MAX_TASKS && priority < PRIORITIES
    ensures Created(r, s.nextFree)
  {
    var n := s.nextFree;
    s.(tds := s.tds[n := s.tds[n].(tid := n, priority := priority, parent := Some(t), state := Ready, slot := 0)],
       sendq := s.sendq[n := []],
       nextFree := n + 1)
  }

  function KernelCreate(s: Kernel, t: nat, priority: int): (r: (Kernel, int))
    requires Created(s, t)
    ensures Created(r.0, t) && r.0.running == s.running && r.0.halted == s.halted
  {
    if priority < 0 || priority > 63 then Strand(s, t, -1)
    else if s.nextFree >= MAX_TASKS then Strand(s, t, -2)
    else
      var n := s.nextFree;
      Return(PutReady(NewTask(s, t, priority), n), t, n)
  }

  function KernelParentTid(s: Kernel, t: nat): (r: (Kernel, int))
    requires Created(s, t)
    ensures Created(r.0, t) && r.0.running == s.running && r.0.halted == s.halted
  {
    Return(s, t, if s.tds[t].parent.None? then -1 else s.tds[t].parent.value)
  }

  /** The receiver is waiting in Receive and the sizes agree. */
  function HandOver(s: Kernel, t: nat, to: nat, msg: seq<Byte>, repLen: nat): (r: Kernel)
    requires Created(s, t) && Created(s, to)
    ensures Shape(r) && r.nextFree == s.nextFree
  {
    var rx := s.tds[to].(state := Ready, slot := t, from := t, inbox := msg);
    var s1 := s.(tds := s.tds[to := rx], ready := Push(s.ready, rx.priority, to));
    var tx := s1.tds[t].(state := ReplyBlocked, repLen := repLen);
    s1.(tds := s1.tds[t := tx], log := Then(Then(s.log, Accepted(t, to, msg)), Taken(t, to, msg)))
  }

  /** The receiver is not waiting: the sender joins its send queue. */
  function Enlist(s: Kernel, t: nat, to: nat, msg: seq<Byte>, repLen: nat): (r: Kernel)
    requires Created(s, t) && Created(s, to)
    ensures Shape(r) && r.nextFree == s.nextFree
  {
    var td := s.tds[t].(state := ReceiveBlocked, outbox := msg, msgLen := |msg|, repLen := repLen);
    Note(s.(tds := s.tds[t := td], sendq := Push(s.sendq, to, t)), Accepted(t, to, msg))
  }

  function KernelSend(s: Kernel, t: nat, to: nat, msg: seq<Byte>, repLen: nat): (r: (Kernel, int))
    requires Created(s, t) && Addressable(s, to)
    ensures Created(r.0, t) && r.0.running == s.running && r.0.halted == s.halted
  {
    if s.tds[to].tid != to then Return(s, t, -1)
    else if s.tds[to].state == SendBlocked then
      if s.tds[to].msgLen != |msg| then Return(s, t, -2)
      else (HandOver(s, t, to, msg, repLen), 0)
    else (Enlist(s, t, to, msg, repLen), 0)
  }

  /** The oldest sender's message does not have the expected size. */
  function Discard(s: Kernel, t: nat, from: nat): (r: (Kernel, int))
    requires Created(s, t) && s.sendq[t] != [] && from < |s.tds|
    ensures Created(r.0, t) && r.0.running == s.running && r.0.halted == s.halted
  {
    var s1 := PopSend(s, t).(stranded := s.stranded + {from});
    Return(Note(s1, Dropped(from, t, s.tds[from].outbox)), t, -1)
  }

  /** The message of `from`, which is out of the send queue, goes to `t`. */
  function Received(s: Kernel, t: nat, from: nat): (r: Kernel)
    requires Created(s, t) && Created(s, from)
    ensures Shape(r) && r.nextFree == s.nextFree
  {
    var rx := s.tds[t].(state := Ready, from := from, inbox := s.tds[from].outbox);
    var s1 := s.(tds := s.tds[t := rx], ready := Push(s.ready, rx.priority, t));
    s1.(tds := s1.tds[from := s1.tds[from].(state := ReplyBlocked)],
        log := Then(s.log, Taken(from, t, s.tds[from].outbox)))
  }

  function Collect(s: Kernel, t: nat, from: nat): (r: (Kernel, int))
    requires Created(s, t) && s.sendq[t] != [] && Created(s, from)
    ensures Created(r.0, t) && r.0.running == s.running && r.0.halted == s.halted
  {
    (Received(PopSend(s, t), t, from), from)
  }

  function Listen(s: Kernel, t: nat, len: nat): (r: Kernel)
    requires Created(s, t)
    ensures Shape(r) && r.nextFree == s.nextFree
  {
    s.(tds := s.tds[t := s.tds[t].(state := SendBlocked, msgLen := len)])
  }

  function KernelReceive(s: Kernel, t: nat, len: nat): (r: (Kernel, int))
    requires Created(s, t) && (s.sendq[t] != [] ==> Created(s, s.sendq[t][0]))
    ensures Created(r.0, t) && r.0.running == s.running && r.0.halted == s.halted
  {
    if s.sendq[t] != [] then
      var from := s.sendq[t][0];
      if s.tds[from].msgLen != len then Discard(s, t, from) else Collect(s, t, from)
    else (Listen(s, t, len), 0)
  }

  /** The target gets the reply and is put in its ready queue, whatever its state. */
  function Answering(s: Kernel, t: nat, target: nat, rep: seq<Byte>): (r: Kernel)
    requires Created(s, t) && Created(s, target)
    ensures Shape(r) && r.nextFree == s.nextFree
  {
    var rx := s.tds[target].(reply := rep, slot := 0);
    Note(Requeue(s.(tds := s.tds[target := rx]), target), Answered(target, t, rep))
  }

  function Answer(s: Kernel, t: nat, target: nat, rep: seq<Byte>): (r: (Kernel, int))
    requires Created(s, t) && Created(s, target)
    ensures Created(r.0, t) && r.0.running == s.running && r.0.halted == s.halted
  {
    (Note(Requeue(Answering(s, t, target, rep), t), Returned(t, 0)), 0)
  }

  function KernelReply(s: Kernel, t: nat, target: nat, rep: seq<Byte>): (r: (Kernel, int))
    requires Created(s, t) && Addressable(s, target)
    ensures Created(r.0, t) && r.0.running == s.running && r.0.halted == s.halted
  {
    if s.tds[target].tid != target then Return(s, t, -1)
    else if s.tds[target].repLen != |rep| then Return(s, t, -2)
    else Answer(s, t, target, rep)
  }

  function KernelAwait(s: Kernel, t: nat, event: int): (r: (Kernel, int))
    requires Created(s, t)
    ensures Created(r.0, t) && r.0.running == s.running && r.0.halted == s.halted
  {
    if event < 0 || event >= MAX_EVENTS then Return(s, t, -1)
    else (SetState(s, t, EventBlocked).(waiting := Push(s.waiting, event, t)), 0)
  }

  function KernelExit(s: Kernel, t: nat): (r: Kernel)
    requires Created(s, t)
    ensures Shape(r) && r.nextFree == s.nextFree
  {
    SetState(s, t, Exited).(halted := Lowest(s.ready) == PRIORITIES)
  }

  /** One waiter leaves the await queue of `e`, with the event's value in its slot. */
  function Wake(s: Kernel, e: nat, v: int): (r: Kernel)
    requires Shape(s) && e < MAX_EVENTS && s.waiting[e] != [] && s.waiting[e][0] < s.nextFree
    ensures Shape(r) && r.nextFree == s.nextFree
  {
    var t := s.waiting[e][0];
    var td := s.tds[t].(state := Ready, slot := v);
    s.(tds := s.tds[t := td], ready := Push(s.ready, td.priority, t), waiting := Pop(s.waiting, e),
       log := Then(s.log, Woken(t, e, v)))
  }

  /** event_handler_handle_event: the await queue is drained from the front. */
  function WakeAll(s: Kernel, e: nat, v: int): (r: Kernel)
    requires Shape(s) && e < MAX_EVENTS && WaitersCreated(s, e)
    ensures Shape(r) && r.nextFree == s.nextFree && r.running == s.running && r.halted == s.halted
    decreases |s.waiting[e]|
  {
    if s.waiting[e] == [] then s else WakeAll(Wake(s, e, v), e, v)
  }

  // ----- What the kernel relies on -----

  /** `tds[tid]` is read without a range check and, for a descriptor that was never
      initialised, compares whatever memory holds. */
  predicate Addressable(s: Kernel, t: nat) {
    Shape(s) && t < MAX_TASKS && (t < s.nextFree || s.tds[t].tid != t)
  }

  predicate WaitersCreated(s: Kernel, e: nat)
    requires e < |s.waiting|
  {
    forall i: nat :: i < |s.waiting[e]| ==> s.waiting[e][i] < s.nextFree
  }

  /** The events the interrupt handler delivers: the timer, and RX, TX and modem status. */
  predicate Source(e: nat) {
    e in {0, 2, 3, 5, 7, 9}
  }

  /** What callers and hardware must respect. The kernel does not check that the target
      of a Reply is waiting for one. */
  predicate Enabled(s: Kernel, req: Request)
    requires Shape(s)
  {
    match req
    case Interrupt(e, _) => Source(e)
    case Syscall(Send(to, _, _)) => Addressable(s, to)
    case Syscall(Reply(target, rep)) =>
      && Addressable(s, target)
      && (target < s.nextFree && s.tds[target].repLen == |rep| ==> s.tds[target].state == ReplyBlocked)
    case _ => true
  }

  // ----- The dispatch loop -----

  function Perform(s: Kernel, t: nat, call: Call): (r: (Kernel, int))
    requires Created(s, t) && (s.sendq[t] != [] ==> Created(s, s.sendq[t][0]))
    requires call.Send? ==> Addressable(s, call.to)
    requires call.Reply? ==> Addressable(s, call.target)
    requires !call.Exit? && !call.Quit?
    ensures Created(r.0, t) && r.0.running == s.running && r.0.halted == s.halted
  {
    match call
    case Pass => Return(s, t, 0)
    case Create(p) => KernelCreate(s, t, p)
    case MyTid => Return(s, t, s.tds[t].tid)
    case MyParentTid => KernelParentTid(s, t)
    case Send(to, msg, repLen) => KernelSend(s, t, to, msg, repLen)
    case Receive(len) => KernelReceive(s, t, len)
    case Reply(target, rep) => KernelReply(s, t, target, rep)
    case AwaitEvent(e) => KernelAwait(s, t, e)
  }

  /** handle: the call, then the final write of its result into the caller's slot. */
  function HandleCall(s: Kernel, t: nat, call: Call): Kernel
    requires Created(s, t) && (s.sendq[t] != [] ==> Created(s, s.sendq[t][0]))
    requires Enabled(s, Syscall(call))
  {
    if call.Quit? then s.(running := Some(t), halted := true)
    else
      var s0 := Note(s, Called(t, call));
      if call.Exit? then KernelExit(s0, t)
      else
        var (s1, v) := Perform(s0, t, call);
        SetSlot(s1, t, v)
  }

  function HandleInterrupt(s: Kernel, t: nat, e: nat, v: int): Kernel
    requires Created(s, t) && Source(e) && WaitersCreated(s, e)
  {
    PutReady(WakeAll(s, e, v), t)
  }

  /** What the queues must hold for the next request to be well defined. */
  predicate Sound(s: Kernel) {
    && Shape(s)
    && (forall k: nat, i: nat :: k < PRIORITIES && i < |s.ready[k]| ==> s.ready[k][i] < s.nextFree)
    && (forall r: nat, i: nat :: r < MAX_TASKS && i < |s.sendq[r]| ==> s.sendq[r][i] < s.nextFree)
    && (forall e: nat, i: nat :: e < MAX_EVENTS && i < |s.waiting[e]| ==> s.waiting[e][i] < s.nextFree)
    && (s.running.Some? ==> s.running.value < s.nextFree)
  }

  function Handle(s: Kernel, req: Request): Kernel
    requires Sound(s) && s.running.Some? && Enabled(s, req)
  {
    var t := s.running.value;
    var s0 := s.(running := None);
    match req
    case Syscall(call) => HandleCall(s0, t, call)
    case Interrupt(e, v) => HandleInterrupt(s0, t, e, v)
  }

  /** scheduler_get */
  function Dispatch(s: Kernel): Kernel
    requires Shape(s)
  {
    var p := Lowest(s.ready);
    if p == PRIORITIES then s.(halted := true)
    else s.(ready := Pop(s.ready, p), running := Some(s.ready[p][0]))
  }

  /** Descriptors 0 (the first user task) and 1 (idle) are set up, all others are whatever
      memory held. */
  function Init(memory: seq<Task>): Kernel
    requires |memory| == MAX_TASKS
  {
    var first := memory[0].(tid := 0, priority := 1, parent := None, state := Ready, slot := 0);
    var idle := memory[1].(tid := 1, priority := 28, parent := Some(0), state := Ready, slot := 0);
    var none := Empties(64);
    Kernel(memory[0 := first][1 := idle], 2,
           Push(Push(none, 1, 0), 28, 1), none, Empties(16),
           None, {}, false, Boot)
  }
}
