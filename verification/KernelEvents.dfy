/** The order of event waiting, over whole runs: tasks are woken in the order of their
    AwaitEvent calls. */
module KernelEvents {

  import opened Bytes
  import opened Options
  import opened KernelTypes
  import opened KernelSpec
  import opened KernelRuns

  /** The tasks that called AwaitEvent for `e`, in the order of the calls. */
  function AwaitersOf(h: History, e: nat): seq<nat> {
    if h.Boot? then []
    else AwaitersOf(h.past, e) +
         if h.event.Called? && h.event.call == AwaitEvent(e) then [h.event.who] else []
  }

  /** The tasks that event `e` woke, in order. */
  function WokenBy(h: History, e: nat): seq<nat> {
    if h.Boot? then []
    else WokenBy(h.past, e) + if h.event.Woken? && h.event.source == e then [h.event.who] else []
  }

  /** Whoever called AwaitEvent was woken, in this order, or still waits, in this order. */
  ghost predicate InCallOrder(s: Kernel) {
    Shape(s) && forall e: nat :: e < MAX_EVENTS ==> AwaitersOf(s.log, e) == WokenBy(s.log, e) + s.waiting[e]
  }

  /** Neither a call of AwaitEvent nor a wake-up. */
  ghost predicate SameWaiting(s: Kernel, s': Kernel) {
    && s'.waiting == s.waiting
    && forall e: nat :: e < MAX_EVENTS ==>
         AwaitersOf(s'.log, e) == AwaitersOf(s.log, e) && WokenBy(s'.log, e) == WokenBy(s.log, e)
  }

  predicate Quiet(e: Event) {
    !(e.Called? && e.call.AwaitEvent?) && !e.Woken?
  }

  /** Up to two more events, which have nothing to do with waiting for events. */
  predicate QuietLog(h: History, h': History) {
    h' == h ||
    (h'.Then? && Quiet(h'.event) &&
     (h'.past == h || (h'.past.Then? && Quiet(h'.past.event) && h'.past.past == h)))
  }

  lemma QuietSame(s: Kernel, s': Kernel)
    requires s'.waiting == s.waiting && QuietLog(s.log, s'.log)
    ensures SameWaiting(s, s')
  {
    forall e: nat | e < MAX_EVENTS
      ensures AwaitersOf(s'.log, e) == AwaitersOf(s.log, e) && WokenBy(s'.log, e) == WokenBy(s.log, e)
    {
      if s'.log != s.log && s'.log.past != s.log {
        assert AwaitersOf(s'.log.past, e) == AwaitersOf(s.log, e) && WokenBy(s'.log.past, e) == WokenBy(s.log, e);
      }
    }
  }

  lemma CallSame(s: Kernel, t: nat, call: Call)
    requires call.AwaitEvent? ==> !(0 <= call.event < MAX_EVENTS)
    ensures SameWaiting(s, Note(s, Called(t, call)))
  {
  }

  lemma SendQuiet(s: Kernel, t: nat, call: Call)
    requires Created(s, t) && call.Send? && Addressable(s, call.to)
    ensures var s' := KernelSend(s, t, call.to, call.msg, call.repLen).0;
      QuietLog(s.log, s'.log) && s'.waiting == s.waiting
  {
  }

  lemma ReceiveQuiet(s: Kernel, t: nat, len: nat)
    requires Created(s, t) && (s.sendq[t] != [] ==> Created(s, s.sendq[t][0]))
    ensures var s' := KernelReceive(s, t, len).0;
      QuietLog(s.log, s'.log) && s'.waiting == s.waiting
  {
  }

  lemma ReplyQuiet(s: Kernel, t: nat, target: nat, rep: seq<Byte>)
    requires Created(s, t) && Addressable(s, target)
    ensures var s' := KernelReply(s, t, target, rep).0;
      QuietLog(s.log, s'.log) && s'.waiting == s.waiting
  {
  }

  lemma PerformQuiet(s: Kernel, t: nat, call: Call)
    requires Created(s, t) && (s.sendq[t] != [] ==> Created(s, s.sendq[t][0]))
    requires Enabled(s, Syscall(call)) && !call.Exit? && !call.Quit?
    requires call.AwaitEvent? ==> !(0 <= call.event < MAX_EVENTS)
    ensures QuietLog(s.log, Perform(s, t, call).0.log) && Perform(s, t, call).0.waiting == s.waiting
  {
    match call
    case Send(_, _, _) => SendQuiet(s, t, call);
    case Receive(len) => ReceiveQuiet(s, t, len);
    case Reply(target, rep) => ReplyQuiet(s, t, target, rep);
    case _ =>
  }

  lemma SameWaitingInOrder(s: Kernel, s': Kernel)
    requires InCallOrder(s) && Shape(s') && SameWaiting(s, s')
    ensures InCallOrder(s')
  {
  }

  lemma AwaitInOrder(s: Kernel, t: nat, event: nat)
    requires InCallOrder(s) && Created(s, t) && event < MAX_EVENTS
    ensures InCallOrder(KernelAwait(Note(s, Called(t, AwaitEvent(event))), t, event).0)
  {
    var s' := KernelAwait(Note(s, Called(t, AwaitEvent(event))), t, event).0;
    forall e: nat | e < MAX_EVENTS
      ensures AwaitersOf(s'.log, e) == WokenBy(s'.log, e) + s'.waiting[e]
    {
      assert AwaitersOf(s.log, e) == WokenBy(s.log, e) + s.waiting[e];
    }
  }

  lemma OtherInOrder(s: Kernel, t: nat, call: Call)
    requires InCallOrder(s) && Created(s, t) && (s.sendq[t] != [] ==> Created(s, s.sendq[t][0]))
    requires Enabled(s, Syscall(call)) && !call.Exit? && !call.Quit?
    requires call.AwaitEvent? ==> !(0 <= call.event < MAX_EVENTS)
    ensures InCallOrder(Perform(Note(s, Called(t, call)), t, call).0)
  {
    var s0 := Note(s, Called(t, call));
    CallSame(s, t, call);
    SameWaitingInOrder(s, s0);
    PerformQuiet(s0, t, call);
    var s1 := Perform(s0, t, call).0;
    QuietSame(s0, s1);
    SameWaitingInOrder(s0, s1);
  }

  lemma CallInOrder(s: Kernel, t: nat, call: Call)
    requires InCallOrder(s) && Created(s, t) && (s.sendq[t] != [] ==> Created(s, s.sendq[t][0]))
    requires Enabled(s, Syscall(call))
    ensures InCallOrder(HandleCall(s, t, call))
  {
    var s' := HandleCall(s, t, call);
    if call.Exit? || call.Quit? {
      SameWaitingInOrder(s, s');
    } else {
      var s1 := Perform(Note(s, Called(t, call)), t, call).0;
      if call.AwaitEvent? && 0 <= call.event < MAX_EVENTS {
        AwaitInOrder(s, t, call.event);
      } else {
        OtherInOrder(s, t, call);
      }
      SameWaitingInOrder(s1, s');
    }
  }

  lemma WakeInOrder(s: Kernel, e: nat, v: int)
    requires InCallOrder(s) && e < MAX_EVENTS && s.waiting[e] != [] && s.waiting[e][0] < s.nextFree
    ensures InCallOrder(Wake(s, e, v))
  {
    var s' := Wake(s, e, v);
    forall k: nat | k < MAX_EVENTS
      ensures AwaitersOf(s'.log, k) == WokenBy(s'.log, k) + s'.waiting[k]
    {
      assert AwaitersOf(s.log, k) == WokenBy(s.log, k) + s.waiting[k];
      assert s.waiting[e] == [s.waiting[e][0]] + s.waiting[e][1..];
    }
  }

  lemma {:induction false} WakeAllInOrder(s: Kernel, e: nat, v: int)
    requires InCallOrder(s) && e < MAX_EVENTS && WaitersCreated(s, e)
    ensures InCallOrder(WakeAll(s, e, v))
    decreases |s.waiting[e]|
  {
    if s.waiting[e] != [] {
      WakeInOrder(s, e, v);
      WakeAllInOrder(Wake(s, e, v), e, v);
    }
  }

  lemma StepInOrder(s: Kernel, s': Kernel)
    requires InCallOrder(s) && Step(s, s')
    ensures InCallOrder(s')
  {
    if s.running.Some? {
      var req :| Enabled(s, req) && s' == Handle(s, req);
      HandleInOrder(s, req);
    }
  }

  lemma HandleInOrder(s: Kernel, req: Request)
    requires InCallOrder(s) && Sound(s) && s.running.Some? && Enabled(s, req)
    ensures InCallOrder(Handle(s, req))
  {
    var s0 := s.(running := None);
    match req
    case Syscall(call) => CallInOrder(s0, s.running.value, call);
    case Interrupt(e, v) => WakeAllInOrder(s0, e, v);
  }

  lemma BootInOrder(s: Kernel)
    requires Booted(s)
    ensures InCallOrder(s)
  {
  }

  /** In every state of every run, the tasks that called AwaitEvent for an event are, in
      the order of their calls, those it woke and then those in its await queue. */
  lemma AwaitOrder(run: seq<Kernel>, i: nat, e: nat)
    requires Run(run) && i < |run| && e < MAX_EVENTS
    ensures Shape(run[i]) && AwaitersOf(run[i].log, e) == WokenBy(run[i].log, e) + run[i].waiting[e]
  {
    ghost var p := (s: Kernel) => InCallOrder(s);
    forall j: nat | j + 1 < |run|
      ensures Keeps(run, p, j)
    {
      if p(run[j]) {
        assert StepAt(run, j);
        StepInOrder(run[j], run[j + 1]);
      }
    }
    BootInOrder(run[0]);
    Always(run, p, i);
  }
}
