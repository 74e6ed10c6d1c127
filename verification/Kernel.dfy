/** The kernel as it runs: descriptors in an array, three families of linked queues, and
    the operations of src/main.c that update them in place. Every operation does to the
    abstract state exactly what KernelSpec says. */
module Kernels {

  import opened Bytes
  import opened Options
  import opened Tables
  import opened KernelTypes
  import Spec = KernelSpec
  import opened KernelPlacement
  import opened KernelInvariant
  import opened KernelRecords
  import opened KernelSteps
  import opened EventDelivery
  import opened KernelDelivery
  import opened KernelRuns
  import opened QueueTables
  import opened Schedulers
  import opened EventHandlers

  class Machine {
    const tds: array<Task>
    const sch: Scheduler
    const eh: EventHandler
    const sendQs: QueueTable
    var nextFree: nat
    var active: Option<nat>
    var halted: bool
    ghost var stranded: set<nat>
    ghost var log: History
    ghost const Repr: set<object>

    /** The parts of the machine share no object. */
    ghost predicate Fixed() {
      && this in Repr && tds in Repr && sch in Repr && eh in Repr && sendQs in Repr && eh.queues in Repr
      && eh.sch == sch && sch.queues in Repr
      && sch.Repr <= Repr && eh.queues.Repr <= Repr && sendQs.Repr <= Repr
      && sch.Repr !! eh.queues.Repr && sch.Repr !! sendQs.Repr && eh.queues.Repr !! sendQs.Repr
      && {this, tds, eh} !! sch.Repr && {this, tds, eh} !! eh.queues.Repr && {this, tds, eh} !! sendQs.Repr
      && tds.Length == MAX_TASKS
      && |eh.queues.qs| == MAX_EVENTS && |eh.queues.pool| == MAX_TASKS
      && |sendQs.qs| == MAX_TASKS && |sendQs.pool| == MAX_TASKS
    }

    /** All that holds whatever was put in the ready queues. */
    ghost predicate Sane()
      reads this, Repr
    {
      Fixed() && eh.queues.Valid() && sendQs.Valid() && sch.Sane()
    }

    /** All queues are proper queues, the ready queues too. */
    ghost predicate Valid()
      reads this, Repr
    {
      Sane() && sch.Valid()
    }

    ghost function Abs(): Kernel
      reads this, Repr
      requires Sane()
    {
      Kernel(tds[..], nextFree, sch.queues.view, sendQs.view, eh.queues.view, active, stranded, halted, log)
    }

    /** Empty queues over descriptors that hold whatever memory held. */
    constructor (memory: seq<Task>)
      requires |memory| == MAX_TASKS
      ensures Valid() && fresh(Repr) && Abs() == Blank(memory)
    {
      var descriptors := new Task[MAX_TASKS](i requires 0 <= i < MAX_TASKS => memory[i]);
      var scheduler := new Scheduler();
      var handler := new EventHandler(scheduler);
      var senders := new QueueTable(MAX_TASKS, MAX_TASKS);
      tds, sch, eh, sendQs := descriptors, scheduler, handler, senders;
      nextFree, active, halted, stranded, log := 2, None, false, {}, KernelTypes.Boot;
      Repr := {this, descriptors, scheduler, handler, senders, handler.queues, scheduler.queues}
              + scheduler.Repr + handler.queues.Repr + senders.Repr;
      new;
      assert tds[..] == memory;
    }

    static ghost function Blank(memory: seq<Task>): Kernel {
      Kernel(memory, 2, Empties(64), Empties(64), Empties(16), None, {}, false, KernelTypes.Boot)
    }

    /** init: the first user task and the idle task become ready. */
    method Boot(ghost memory: seq<Task>)
      requires Valid() && |memory| == MAX_TASKS && Abs() == Blank(memory)
      modifies Repr
      ensures Valid() && Abs() == Spec.Init(memory)
    {
      InitTask(0, 1, None);
      InitTask(1, 28, Some(0));
      BootSteps(memory, Abs());
      PutReady(0);
      PutReady(1);
    }

    /** Two descriptors set up and put in their ready queues. */
    static lemma BootSteps(memory: seq<Task>, s: Kernel)
      requires |memory| == MAX_TASKS && s == Blank(memory).(tds := Spec.Init(memory).tds)
      ensures Spec.Created(s, 0) && Absent(s.ready, 0)
      ensures Absent(Spec.PutReady(s, 0).ready, 1)
      ensures Spec.PutReady(Spec.PutReady(s, 0), 1) == Spec.Init(memory)
    {
      EmptiesCount(64, 0);
      EmptiesCount(64, 1);
      CountPush(Empties(64), 1, 0, 1);
    }

    /** task_descriptor_init: message parameters keep whatever they were. */
    method InitTask(n: nat, priority: nat, parent: Option<nat>)
      requires Valid() && n < MAX_TASKS && sendQs.view[n] == []
      modifies Repr
      ensures Valid()
      ensures Abs() == old(Abs()).(tds := old(tds[..])[n :=
        old(tds[n]).(tid := n, priority := priority, parent := parent, state := Ready, slot := 0)])
    {
      tds[n] := tds[n].(tid := n, priority := priority, parent := parent, slot := 0);
      sendQs.Reset(n);
      tds[n] := tds[n].(state := Ready);
    }

    // ----- Primitive moves -----

    method SetSlot(t: nat, v: int)
      requires Valid() && Spec.Created(Abs(), t)
      modifies Repr
      ensures Valid() && Abs() == Spec.SetSlot(old(Abs()), t, v)
    {
      tds[t] := tds[t].(slot := v);
      assert tds[..] == old(tds[..])[t := old(tds[t]).(slot := v)];
    }

    /** scheduler_put */
    method PutReady(t: nat)
      requires Valid() && Spec.Created(Abs(), t) && Absent(sch.queues.view, t)
      modifies Repr
      ensures Valid() && Abs() == Spec.PutReady(old(Abs()), t)
    {
      sch.Put(tds, t);
    }

    /** The caller goes back to its ready queue and will see `v`. */
    method Return(t: nat, v: int)
      requires Valid() && Spec.Created(Abs(), t) && Absent(sch.queues.view, t)
      modifies Repr
      ensures Valid() && Abs() == Spec.Return(old(Abs()), t, v).0
    {
      PutReady(t);
      log := Then(log, Returned(t, v));
    }

    /** The kernel holds `t`, which is in no queue. */
    ghost predicate Holds(t: nat)
      reads this, Repr
    {
      Valid() && Placed(Abs(), stranded + {t}) && t !in stranded
    }

    lemma HeldAbsent(t: nat)
      requires Holds(t)
      ensures Spec.Created(Abs(), t)
      ensures Absent(sch.queues.view, t) && Absent(sendQs.view, t) && Absent(eh.queues.view, t)
    {
      HandAbsent(Abs(), stranded + {t}, t);
    }

    /** A task that waits in no queue is in none. */
    lemma ParkedAbsent(t: nat, other: nat)
      requires Holds(t) && Spec.Created(Abs(), other) && Parked(tds[other].state)
      ensures Absent(sch.queues.view, other) && other !in sch.queues.view[tds[other].priority]
    {
      GrabPlaced(Abs(), stranded + {t}, other);
      HandAbsent(Abs(), stranded + {t} + {other}, other);
      AbsentHere(sch.queues.view, tds[other].priority, other);
    }

    // ----- System calls: each returns the value for the caller's slot -----

    method KernelCreate(t: nat, priority: int) returns (ret: int)
      requires Holds(t)
      modifies Repr
      ensures Valid() && (Abs(), ret) == Spec.KernelCreate(old(Abs()), t, priority)
    {
      HeldAbsent(t);
      if priority < 0 || priority > 63 {
        stranded, log := stranded + {t}, Then(log, Returned(t, -1));
        return -1;
      }
      if nextFree >= MAX_TASKS {
        stranded, log := stranded + {t}, Then(log, Returned(t, -2));
        return -2;
      }
      var n := nextFree;
      NewTaskPlaced(Abs(), stranded + {t}, t, priority);
      ghost var s1 := Spec.NewTask(Abs(), t, priority);
      assert Absent(sch.queues.view, n) by { HandAbsent(s1, stranded + {t} + {n}, n); }
      InitTask(n, priority, Some(t));
      nextFree := n + 1;
      assert Abs() == s1 by { assert sendQs.view == s1.sendq; }
      PutReady(n);
      CountPush(s1.ready, priority, n, t);
      Return(t, n);
      return n;
    }

    method KernelSend(t: nat, to: nat, msg: seq<Byte>, repLen: nat) returns (ret: int)
      requires Holds(t) && Spec.Addressable(Abs(), to) && tds[t].state == Ready
      modifies Repr
      ensures Valid() && (Abs(), ret) == Spec.KernelSend(old(Abs()), t, to, msg, repLen)
    {
      HeldAbsent(t);
      if tds[to].tid != to {
        Return(t, -1);
        return -1;
      }
      if tds[to].state == SendBlocked {
        if tds[to].msgLen != |msg| {
          Return(t, -2);
          return -2;
        }
        ParkedAbsent(t, to);
        HandOver(t, to, msg, repLen);
      } else {
        Enlist(t, to, msg, repLen);
      }
      return 0;
    }

    method HandOver(t: nat, to: nat, msg: seq<Byte>, repLen: nat)
      requires Valid() && Spec.Created(Abs(), t) && Spec.Created(Abs(), to) && Absent(sch.queues.view, to)
      modifies Repr
      ensures Valid() && Abs() == Spec.HandOver(old(Abs()), t, to, msg, repLen)
    {
      tds[to] := tds[to].(from := t, inbox := msg, slot := t);
      sch.Put(tds, to);
      tds[t] := tds[t].(state := ReplyBlocked);
      tds[t] := tds[t].(repLen := repLen);
      log := Then(Then(log, Accepted(t, to, msg)), Taken(t, to, msg));
      assert tds[..] == Spec.HandOver(old(Abs()), t, to, msg, repLen).tds;
    }

    method Enlist(t: nat, to: nat, msg: seq<Byte>, repLen: nat)
      requires Valid() && Spec.Created(Abs(), t) && Spec.Created(Abs(), to) && Absent(sendQs.view, t)
      modifies Repr
      ensures Valid() && Abs() == Spec.Enlist(old(Abs()), t, to, msg, repLen)
    {
      sendQs.Put(to, t);
      tds[t] := tds[t].(state := ReceiveBlocked);
      tds[t] := tds[t].(outbox := msg, msgLen := |msg|);
      tds[t] := tds[t].(repLen := repLen);
      log := Then(log, Accepted(t, to, msg));
      assert tds[..] == Spec.Enlist(old(Abs()), t, to, msg, repLen).tds;
    }

    method KernelReceive(t: nat, len: nat) returns (ret: int)
      requires Holds(t)
      modifies Repr
      ensures Spec.Created(old(Abs()), t) && (old(sendQs.view)[t] != [] ==> Spec.Created(old(Abs()), old(sendQs.view)[t][0]))
      ensures Valid() && (Abs(), ret) == Spec.KernelReceive(old(Abs()), t, len)
    {
      HeldAbsent(t);
      var empty := sendQs.Empty(t);
      if empty {
        Listen(t, len);
        return 0;
      }
      assert Has(sendQs.view, t, sendQs.view[t][0]);
      ret := TakeSender(t, len);
    }

    /** The oldest sender leaves the queue; its message is taken or thrown away. */
    method TakeSender(t: nat, len: nat) returns (ret: int)
      requires Valid() && Spec.Created(Abs(), t) && Absent(sch.queues.view, t)
      requires sendQs.view[t] != [] && Spec.Created(Abs(), sendQs.view[t][0])
      modifies Repr
      ensures Valid() && (Abs(), ret) == Spec.KernelReceive(old(Abs()), t, len)
    {
      var from := sendQs.Get(t);
      if tds[from].msgLen != len {
        stranded, log := stranded + {from}, Then(log, Dropped(from, t, tds[from].outbox));
        Return(t, -1);
        return -1;
      }
      Collect(t, from);
      return from;
    }

    method Listen(t: nat, len: nat)
      requires Valid() && Spec.Created(Abs(), t)
      modifies Repr
      ensures Valid() && Abs() == Spec.Listen(old(Abs()), t, len)
    {
      tds[t] := tds[t].(state := SendBlocked);
      tds[t] := tds[t].(msgLen := len);
      assert tds[..] == Spec.Listen(old(Abs()), t, len).tds;
    }

    /** The sender is already out of the send queue. */
    method Collect(t: nat, from: nat)
      requires Valid() && Spec.Created(Abs(), t) && Spec.Created(Abs(), from) && Absent(sch.queues.view, t)
      modifies Repr
      ensures Valid() && Abs() == Spec.Received(old(Abs()), t, from)
    {
      tds[t] := tds[t].(inbox := tds[from].outbox, from := from);
      log := Then(log, Taken(from, t, tds[from].outbox));
      sch.Put(tds, t);
      tds[from] := tds[from].(state := ReplyBlocked);
      assert tds[..] == Spec.Received(old(Abs()), t, from).tds;
    }

    /** The kernel does not look at the state of its target. With agreeing sizes the ready
        queues stay proper queues exactly when the target is another task that is in none
        of them; if it is in one, that queue is cut behind it and miscounted. All is well
        exactly when the target is another task that is in no queue at all. */
    method KernelReply(t: nat, target: nat, rep: seq<Byte>) returns (ret: int)
      requires Holds(t) && Spec.Addressable(Abs(), target)
      modifies Repr
      ensures Sane() && (Abs(), ret) == Spec.KernelReply(old(Abs()), t, target, rep)
      ensures ret != 0 ==> Valid()
      ensures ret == 0 ==>
        (Valid() <==> target != t && target !in old(sch.queues.view)[old(tds[target].priority)])
      ensures ret == 0 ==> forall p: nat :: p < PRIORITIES ==>
        sch.queues.qs[p].elements == |old(sch.queues.view)[p]|
          + (if p == old(tds[target].priority) then 1 else 0) + (if p == old(tds[t].priority) then 1 else 0)
      ensures ret == 0 ==>
        (Valid() && NobodyTwice(Abs()) <==>
           target != t && (Parked(old(tds[target].state)) || target in old(stranded)))
    {
      HeldAbsent(t);
      if tds[target].tid != target {
        Return(t, -1);
        return -1;
      }
      if tds[target].repLen != |rep| {
        Return(t, -2);
        return -2;
      }
      TargetPlace(Abs(), t, target);
      ReplySafeIff(Abs(), t, target, rep);
      AnswerBoth(t, target, rep);
      return 0;
    }

    /** The accepted Reply: the target is put in its ready queue, then the caller. */
    method AnswerBoth(t: nat, target: nat, rep: seq<Byte>)
      requires Valid() && Spec.Created(Abs(), t) && Spec.Created(Abs(), target) && Absent(sch.queues.view, t)
      requires target in sch.queues.view[tds[target].priority] || Absent(sch.queues.view, target)
      modifies Repr
      ensures Sane() && Abs() == Spec.Answer(old(Abs()), t, target, rep).0
      ensures Valid() <==> target != t && target !in old(sch.queues.view)[old(tds[target].priority)]
      ensures forall p: nat :: p < PRIORITIES ==>
        sch.queues.qs[p].elements == |old(sch.queues.view)[p]|
          + (if p == old(tds[target].priority) then 1 else 0) + (if p == old(tds[t].priority) then 1 else 0)
    {
      ghost var v, p, q := sch.queues.view, tds[target].priority, tds[t].priority;
      TwoPuts(v, p, target, q, t);
      LinkingLength(v[p], target);
      AnswerTarget(t, target, rep);
      PutBack(t);
      assert target in v[p] ==> sch.queues.qs[p].elements > |sch.queues.view[p]|;
    }

    method AnswerTarget(t: nat, target: nat, rep: seq<Byte>)
      requires Valid() && Spec.Created(Abs(), t) && Spec.Created(Abs(), target)
      requires target in sch.queues.view[tds[target].priority] || Absent(sch.queues.view, target)
      modifies Repr
      ensures Sane() && Abs() == Spec.Answering(old(Abs()), t, target, rep)
      ensures Valid() <==> target !in old(sch.queues.view)[old(tds[target].priority)]
      ensures forall p: nat :: p < PRIORITIES ==>
        sch.queues.qs[p].elements == |old(sch.queues.view)[p]| + if p == old(tds[target].priority) then 1 else 0
    {
      tds[target] := tds[target].(reply := rep, slot := 0);
      sch.Put(tds, target);
      log := Then(log, Answered(target, t, rep));
      assert tds[..] == Spec.Answering(old(Abs()), t, target, rep).tds;
    }

    /** The caller of a Reply goes back to its ready queue. */
    method PutBack(t: nat)
      requires Sane() && Spec.Created(Abs(), t)
      requires t in sch.queues.view[tds[t].priority] || Absent(sch.queues.view, t)
      modifies Repr
      ensures Sane() && Abs() == Spec.Note(Spec.Requeue(old(Abs()), t), Returned(t, 0))
      ensures old(Valid()) ==> (Valid() <==> t !in old(sch.queues.view)[old(tds[t].priority)])
      ensures forall p: nat :: p < PRIORITIES ==>
        sch.queues.qs[p].elements == old(sch.queues.qs[p].elements) + if p == old(tds[t].priority) then 1 else 0
    {
      sch.Put(tds, t);
      log := Then(log, Returned(t, 0));
    }

    method KernelAwait(t: nat, event: int) returns (ret: int)
      requires Holds(t)
      modifies Repr
      ensures Spec.Created(old(Abs()), t)
      ensures Valid() && (Abs(), ret) == Spec.KernelAwait(old(Abs()), t, event)
    {
      HeldAbsent(t);
      if event < 0 || event >= MAX_EVENTS {
        Return(t, -1);
        return -1;
      }
      var r := eh.AddTask(event, tds, t);
      return 0;
    }

    method KernelExit(t: nat) returns (stop: bool)
      requires Holds(t)
      modifies Repr
      ensures Spec.Created(old(Abs()), t)
      ensures Valid() && Abs() == Spec.KernelExit(old(Abs()), t) && stop == halted
    {
      tds[t] := tds[t].(state := Exited);
      stop := sch.Empty();
      halted := stop;
    }

    // ----- The dispatch loop -----

    /** What a good state means for the event handler. */
    lemma WaitersOrderly(t: nat)
      requires Holds(t)
      ensures Orderly(eh.Snapshot(tds))
    {
      var s := Abs();
      forall x: nat
        ensures Count(s.ready, x) + Count(s.waiting, x) <= 1
      {
        QueuePlaces(s, stranded + {t}, x);
      }
    }

    /** The interrupt half of handle, up to putting the interrupted task back. */
    method Deliver(t: nat, e: nat, v: int)
      requires Holds(t) && Spec.Source(e) && Spec.WaitersCreated(Abs(), e)
      modifies Repr
      ensures Valid() && Abs() == Spec.WakeAll(old(Abs()), e, v)
    {
      WaitersOrderly(t);
      HandleEvent(e, v);
    }

    method HandleEvent(e: nat, v: int)
      requires Valid() && Orderly(eh.Snapshot(tds)) && e < MAX_EVENTS
      requires Spec.Shape(Abs()) && Spec.WaitersCreated(Abs(), e)
      modifies Repr
      ensures Valid() && Abs() == Spec.WakeAll(old(Abs()), e, v)
    {
      ghost var s := Abs();
      var r := eh.HandleEvent(e, v, tds);
      WakeAllIs(s, eh.Snapshot(tds), e, v);
      log := Spec.WakeAll(s, e, v).log;
    }

    /** Delivering an event in closed form is waking its waiters one by one. */
    static lemma WakeAllIs(s: Kernel, w: Waiters, e: nat, v: int)
      requires Spec.Shape(s) && e < MAX_EVENTS && Spec.WaitersCreated(s, e)
      requires Bounded(Snapshot(s), e) && Delivered(Snapshot(s), w, e, v)
      ensures var s' := Spec.WakeAll(s, e, v);
        s' == s.(waiting := w.waiting, ready := w.ready, tds := w.tds, log := s'.log)
    {
      WakeAllDelivers(s, e, v);
      WakeAllStranded(s, e, v);
      DeliveredOnce(Snapshot(s), w, Snapshot(Spec.WakeAll(s, e, v)), e, v);
    }

    method Perform(t: nat, call: Call) returns (ret: int)
      requires Holds(t) && tds[t].state == Ready && Spec.Enabled(Abs(), Syscall(call)) && !call.Exit? && !call.Quit?
      requires sendQs.view[t] != [] ==> Spec.Created(Abs(), sendQs.view[t][0])
      modifies Repr
      ensures Valid() && (Abs(), ret) == Spec.Perform(old(Abs()), t, call)
    {
      HeldAbsent(t);
      match call
      case Pass => Return(t, 0); ret := 0;
      case Create(p) => ret := KernelCreate(t, p);
      case MyTid => ret := tds[t].tid; Return(t, ret);
      case MyParentTid => ret := if tds[t].parent.None? then -1 else tds[t].parent.value; Return(t, ret);
      case Send(to, msg, repLen) => ret := KernelSend(t, to, msg, repLen);
      case Receive(len) => ret := KernelReceive(t, len);
      case Reply(target, rep) =>
        if target < nextFree && tds[target].repLen == |rep| { ParkedAbsent(t, target); }
        ret := KernelReply(t, target, rep);
      case AwaitEvent(e) => ret := KernelAwait(t, e);
    }

    /** handle */
    method Handle(req: Request)
      requires Valid() && Manageable(Abs(), req)
      modifies Repr
      ensures Valid() && Abs() == Spec.Handle(old(Abs()), req)
    {
      var t := active.value;
      active := None;
      match req
      case Interrupt(e, v) => HandleInterrupt(t, e, v);
      case Syscall(call) => HandleCall(t, call);
    }

    /** What the handlers need to know about the running task and its request. */
    static ghost predicate Manageable(s: Kernel, req: Request) {
      && Spec.Sound(s) && s.running.Some? && Spec.Enabled(s, req)
      && var t, s0 := s.running.value, s.(running := None);
         && t !in s.stranded && s.tds[t].state == Ready
         && match req
            case Interrupt(e, v) =>
              && Placed(s0, s.stranded + {t}) && Spec.WaitersCreated(s0, e)
              && Spec.Created(Spec.WakeAll(s0, e, v), t) && Absent(Spec.WakeAll(s0, e, v).ready, t)
            case Syscall(call) => Placed(Spec.Note(s0, Called(t, call)), s.stranded + {t})
    }

    static lemma RunningManageable(s: Kernel, req: Request)
      requires Inv(s) && s.running.Some? && Spec.Enabled(s, req)
      ensures Manageable(s, req)
    {
      match req
      case Interrupt(e, v) => InterruptReady(s, s.running.value, e, v);
      case Syscall(call) => CallReady(s, s.running.value, call);
    }

    method HandleInterrupt(t: nat, e: nat, v: int)
      requires Holds(t) && Spec.Source(e) && Spec.WaitersCreated(Abs(), e)
      requires Spec.Created(Spec.WakeAll(Abs(), e, v), t) && Absent(Spec.WakeAll(Abs(), e, v).ready, t)
      modifies Repr
      ensures Spec.Created(old(Abs()), t) && Valid() && Abs() == Spec.HandleInterrupt(old(Abs()), t, e, v)
    {
      Deliver(t, e, v);
      PutReady(t);
    }

    method HandleCall(t: nat, call: Call)
      requires Valid() && Placed(Spec.Note(Abs(), Called(t, call)), stranded + {t}) && t !in stranded
      requires tds[t].state == Ready && Spec.Enabled(Abs(), Syscall(call))
      requires sendQs.view[t] != [] ==> Spec.Created(Abs(), sendQs.view[t][0])
      modifies Repr
      ensures Spec.Created(old(Abs()), t) && Valid() && Abs() == Spec.HandleCall(old(Abs()), t, call)
    {
      if call.Quit? {
        active, halted := Some(t), true;
        return;
      }
      log := Then(log, Called(t, call));
      if call.Exit? {
        var stop := KernelExit(t);
        return;
      }
      var ret := Perform(t, call);
      SetSlot(t, ret);
    }

    static lemma InterruptReady(s: Kernel, t: nat, e: nat, v: int)
      requires Inv(s) && s.running == Some(t) && Spec.Source(e)
      ensures Spec.Sound(s) && Spec.WaitersCreated(s.(running := None), e)
      ensures Placed(s.(running := None), s.stranded + {t}) && t !in s.stranded
      ensures Spec.Created(Spec.WakeAll(s.(running := None), e, v), t)
      ensures Absent(Spec.WakeAll(s.(running := None), e, v).ready, t)
    {
      GoodSound(s);
      var s0 := s.(running := None);
      SameCore(s, s0, t);
      WakeAllRunning(s0, t, e, v);
      var s1 := Spec.WakeAll(s0, e, v);
      HandAbsent(s1, s1.stranded + {t}, t);
    }

    static lemma CallReady(s: Kernel, t: nat, call: Call)
      requires Inv(s) && s.running == Some(t) && Spec.Enabled(s, Syscall(call))
      ensures Spec.Sound(s)
      ensures var s1 := Spec.Note(s.(running := None), Called(t, call));
        && Placed(s1, s.stranded + {t}) && t !in s.stranded && s1.tds[t].state == Ready
        && Spec.Enabled(s1, Syscall(call))
        && (s1.sendq[t] != [] ==> Spec.Created(s1, s1.sendq[t][0]))
    {
      GoodSound(s);
      var s0 := s.(running := None);
      SameCore(s, s0, t);
      SamePlacesPlaced(s0, Spec.Note(s0, Called(t, call)), s.stranded + {t});
    }

    /** Between two turns of the loop, or after it. */
    ghost predicate BetweenTurns()
      reads this, Repr
    {
      Valid() && Inv(Abs()) && Records(Abs()) && (active.None? || halted)
    }

    /** One turn of the loop in main. `req` is what the processor comes back with from the
        task that was activated. */
    method Turn(req: Request)
      requires BetweenTurns() && !halted && CanTurn(Abs(), req)
      modifies Repr
      ensures BetweenTurns() && CanTurn(old(Abs()), req) && Abs() == Turned(old(Abs()), req)
    {
      TurnKeeps(Abs(), req);
      Pick();
      if active.Some? {
        Handle(req);
      }
    }

    /** The next task gets the processor, or the loop ends. */
    method Pick()
      requires Valid() && Spec.Shape(Abs()) && active.None?
      modifies Repr
      ensures Valid() && Abs() == Spec.Dispatch(old(Abs()))
    {
      var r := sch.Get();
      if r.None? {
        halted := true;
      } else {
        active := r;
      }
    }

    static lemma TurnKeeps(s: Kernel, req: Request)
      requires Inv(s) && Records(s) && s.running.None? && CanTurn(s, req)
      ensures var d, s' := Spec.Dispatch(s), Turned(s, req);
        && (d.running.Some? ==> Manageable(d, req))
        && Inv(s') && Records(s') && (s'.running.None? || s'.halted)
    {
      var d := Spec.Dispatch(s);
      DispatchKeepsInv(s);
      RecordsSame(s, d);
      if d.running.Some? {
        HandleKeepsInv(d, req);
        RunningManageable(d, req);
        HandleLetsGo(d, req);
      }
    }

    /** After a request no task has the processor, unless the loop is over. */
    static lemma HandleLetsGo(s: Kernel, req: Request)
      requires Spec.Sound(s) && s.running.Some? && Spec.Enabled(s, req)
      ensures Spec.Handle(s, req).running.None? || Spec.Handle(s, req).halted
    {
    }

    /** The loop in main, until it breaks or the requests end. `ss` are the states between
        its turns: every request is handled in one turn, as long as the loop is not over. */
    method Loop(reqs: seq<Request>) returns (ghost ss: seq<Kernel>)
      requires BetweenTurns() && Fed(Abs(), reqs)
      modifies Repr
      ensures BetweenTurns()
      ensures AllTurns(ss, reqs) && ss[0] == old(Abs()) && ss[|ss| - 1] == Abs()
    {
      ss := [Abs()];
      var i := 0;
      while i < |reqs| && !halted
        invariant i <= |reqs| && BetweenTurns() && |ss| == i + 1 && Turns(ss, reqs) && ss[0] == old(Abs()) && ss[i] == Abs()
      {
        assert NextEnabled(ss, reqs);
        TurnTaken(ss, reqs);
        Turn(reqs[i]);
        ss := ss + [Abs()];
        i := i + 1;
      }
    }

    /** What is known of the next turn of the loop. */
    static lemma TurnTaken(ss: seq<Kernel>, reqs: seq<Request>)
      requires Turns(ss, reqs) && |ss| <= |reqs| && NextEnabled(ss, reqs)
      requires var s := ss[|ss| - 1]; Inv(s) && !s.halted && s.running.None?
      ensures var s, req := ss[|ss| - 1], reqs[|ss| - 1];
        CanTurn(s, req) && Turns(ss + [Turned(s, req)], reqs)
    {
      var s, req := ss[|ss| - 1], reqs[|ss| - 1];
      GoodSound(s);
      DispatchKeepsInv(s);
      GoodSound(Spec.Dispatch(s));
      assert TurnAt(ss + [Turned(s, req)], reqs, |ss| - 1);
      OneTurnMore(ss, reqs, Turned(s, req));
    }
  }

  /** main: the machine is set up and the loop runs, one turn for every request until it is
      over. It only goes through states of a run, so every theorem about runs holds of it. */
  method Launch(memory: seq<Task>, reqs: seq<Request>) returns (m: Machine, ghost ss: seq<Kernel>)
    requires |memory| == MAX_TASKS && Fed(Spec.Init(memory), reqs)
    ensures fresh(m.Repr) && m.Valid() && Inv(m.Abs())
    ensures AllTurns(ss, reqs) && ss[0] == Spec.Init(memory) && ss[|ss| - 1] == m.Abs()
    ensures forall i: nat :: i < |ss| ==> Reachable(ss[i])
  {
    m := new Machine(memory);
    m.Boot(memory);
    InitInv(memory);
    InitRecords(memory);
    ss := m.Loop(reqs);
    BootReachable(memory);
    forall i: nat | i < |ss|
      ensures Reachable(ss[i])
    {
      TurnsReachable(ss, reqs, i);
    }
  }

  /** A concrete failure: right after boot the first task replies to the idle task, which
      is READY. The idle task is in its ready queue once, and that queue counts two. */
  method ReplyToReadyTask(memory: seq<Task>, rep: seq<Byte>) returns (m: Machine, ret: int)
    requires |memory| == MAX_TASKS && |rep| == memory[1].repLen
    ensures m.Sane() && ret == 0 && m.Abs().ready[28] == [1]
    ensures m.sch.queues.qs[28].elements == 2 && !m.sch.queues.qs[28].Linked() && !m.Valid()
  {
    m := new Machine(memory);
    m.Boot(memory);
    FirstPick(memory);
    m.Pick();
    ret := m.KernelReply(0, 1, rep);
    assert m.sch.queues.QueueOk(28);
  }

  lemma FirstPick(memory: seq<Task>)
    requires |memory| == MAX_TASKS
    ensures var s := Spec.Dispatch(Spec.Init(memory));
      && s.running == Some(0) && Placed(s, s.stranded + {0}) && 0 !in s.stranded && Spec.Addressable(s, 1)
      && s.ready[28] == [1] && s.ready[1] == [] && s.tds[0].priority == 1 && s.tds[1].priority == 28
      && s.tds[1].tid == 1 && s.tds[1].repLen == memory[1].repLen
  {
    var ready := Spec.Init(memory).ready;
    assert ready[0] == [] && ready[1] == [0] && ready[28] == [1];
    assert Lowest(ready) == 1;
    InitPlaced(memory);
    DispatchPlaced(Spec.Init(memory));
  }
}
