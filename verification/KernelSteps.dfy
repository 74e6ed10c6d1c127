/** The remaining requests, dispatching and booting: the invariant over one step of the
    main loop, whatever the request. */
module KernelSteps {

  import opened Bytes
  import opened Options
  import opened Tables
  import opened KernelTypes
  import opened KernelSpec
  import opened KernelPlacement
  import opened KernelHistory
  import opened KernelInvariant
  import opened KernelRecords

  /** Task `t` runs: in no queue, READY, and between two calls. */
  ghost predicate Running(s: Kernel, t: nat) {
    Good(s, {t}) && s.tds[t].state == Ready && Talks(s, t)
  }

  lemma CallTalk(s: Kernel, t: nat, call: Call)
    requires AllTalk(s, {}) && Created(s, t) && s.tds[t].state == Ready && s.nextFree == TaskCount(s.log)
    ensures AllTalk(Note(s, Called(t, call)), {t})
  {
    var e := Called(t, call);
    var s' := Note(s, e);
    assert Talks(s, t);
    StillUntouched(s.log, e, s.nextFree);
    forall x: nat | x < s'.nextFree && x != t
      ensures Talks(s', x)
    {
      NotConcerned(s.log, e, x);
      StillTalks(s, s', x);
    }
  }

  lemma CallStarts(s: Kernel, t: nat, call: Call)
    requires Running(s, t) && s.nextFree == TaskCount(s.log)
    ensures Calling(Note(s, Called(t, call)), t, call)
  {
    var s' := Note(s, Called(t, call));
    SamePlacesPlaced(s, s', s.stranded + {t});
    FifoSame(s, s');
    CallTalk(s, t, call);
  }

  // ----- Reply -----

  /** A target that waits for a reply is in no ready queue, so that nothing is cut. */
  lemma AnsweringApart(s: Kernel, t: nat, target: nat, rep: seq<Byte>)
    requires Placed(s, s.stranded + {t}) && target < s.nextFree && target != t
    requires !Has(s.ready, s.tds[target].priority, target)
    ensures Answering(s, t, target, rep).ready == Push(s.ready, s.tds[target].priority, target)
    ensures Answer(s, t, target, rep) == Return(Answering(s, t, target, rep), t, 0)
  {
    assert t in s.stranded + {t};
    assert !Has(s.ready, s.tds[t].priority, t);
  }

  lemma AnsweringPlaced(s: Kernel, t: nat, target: nat, rep: seq<Byte>)
    requires Placed(s, s.stranded + {t}) && target < s.nextFree && target != t && target !in s.stranded
    requires s.tds[target].state == ReplyBlocked
    ensures Placed(Answering(s, t, target, rep), s.stranded + {t})
  {
    AnsweringApart(s, t, target, rep);
    GrabPlaced(s, s.stranded + {t}, target);
    PutReadyPlaced(s, Answering(s, t, target, rep), s.stranded + {t} + {target}, target);
    assert s.stranded + {t} + {target} - {target} == s.stranded + {t};
  }

  lemma AnsweringTalk(s: Kernel, t: nat, target: nat, rep: seq<Byte>)
    requires AllTalk(s, {t}) && Created(s, t) && Created(s, target) && target != t
    requires s.tds[target].state == ReplyBlocked && s.tds[target].repLen == |rep|
    requires StageOf(s.log, t) == InCall(Reply(target, rep))
    ensures AllTalk(Answering(s, t, target, rep), {t})
  {
    var s' := Answering(s, t, target, rep);
    var e := Answered(target, t, rep);
    assert Talks(s, target);
    StillUntouched(s.log, e, s.nextFree);
    forall x: nat | x < s'.nextFree && x != t
      ensures Talks(s', x)
    {
      if x != target {
        NotConcerned(s.log, e, x);
        StillTalks(s, s', x);
      }
    }
  }

  lemma AnsweringCalling(s: Kernel, t: nat, target: nat, rep: seq<Byte>)
    requires Calling(s, t, Reply(target, rep)) && target < s.nextFree
    requires s.tds[target].state == ReplyBlocked && s.tds[target].repLen == |rep|
    ensures Calling(Answering(s, t, target, rep), t, Reply(target, rep))
  {
    AnsweringPlaced(s, t, target, rep);
    FifoSame(s, Answering(s, t, target, rep));
    AnsweringTalk(s, t, target, rep);
  }

  lemma ReplyGood(s: Kernel, t: nat, target: nat, rep: seq<Byte>)
    requires Calling(s, t, Reply(target, rep)) && Enabled(s, Syscall(Reply(target, rep)))
    requires s.nextFree == TaskCount(s.log) && !(s.log.Then? && s.log.event.Answered?)
    ensures Good(Finish(KernelReply(s, t, target, rep), t), {})
  {
    var call := Reply(target, rep);
    if s.tds[target].tid != target {
      ReturnGood(s, t, call, -1);
    } else if s.tds[target].repLen != |rep| {
      if target != t { assert Talks(s, target); }
      ReturnGood(s, t, call, -2);
    } else {
      AnsweringCalling(s, t, target, rep);
      AnsweringApart(s, t, target, rep);
      ReturnGood(Answering(s, t, target, rep), t, call, 0);
    }
  }

  // ----- AwaitEvent and Exit -----

  lemma AwaitTalk(s: Kernel, s': Kernel, t: nat, e: nat)
    requires AllTalk(s, {t}) && Created(s, t) && e < MAX_EVENTS && StageOf(s.log, t) == InCall(AwaitEvent(e))
    requires s' == Finish(KernelAwait(s, t, e), t)
    ensures AllTalk(s', {})
  {
    PushHas(s.waiting, e, t);
    forall x: nat | x < s'.nextFree
      ensures Talks(s', x)
    {
      if x != t { StillTalks(s, s', x); }
    }
  }

  lemma AwaitGood(s: Kernel, t: nat, event: int)
    requires Calling(s, t, AwaitEvent(event))
    ensures Good(Finish(KernelAwait(s, t, event), t), {})
  {
    if event < 0 || event >= MAX_EVENTS {
      ReturnGood(s, t, AwaitEvent(event), -1);
    } else {
      var s' := Finish(KernelAwait(s, t, event), t);
      AwaitPlaced(s, s', s.stranded + {t}, t, event);
      assert s.stranded + {t} - {t} == s.stranded + {};
      FifoSame(s, s');
      AwaitTalk(s, s', t, event);
    }
  }

  lemma ExitGood(s: Kernel, t: nat)
    requires Calling(s, t, Exit)
    ensures Good(KernelExit(s, t), {})
  {
    var s' := KernelExit(s, t);
    HeldStatePlaced(s, s', s.stranded + {t}, t);
    assert s.stranded + {t} - {t} == s.stranded + {};
    FifoSame(s, s');
    forall x: nat | x < s'.nextFree
      ensures Talks(s', x)
    {
      if x != t { StillTalks(s, s', x); }
    }
  }

  // ----- Interrupts -----

  lemma WakePlaced(s: Kernel, t: nat, e: nat, v: int)
    requires Placed(s, s.stranded + {t}) && e < MAX_EVENTS && s.waiting[e] != [] && s.waiting[e][0] < s.nextFree
    ensures Placed(Wake(s, e, v), s.stranded + {t})
  {
    var w := s.waiting[e][0];
    PopWaitingPlaced(s, s.stranded + {t}, e);
    PutReadyPlaced(s.(waiting := Pop(s.waiting, e)), Wake(s, e, v), s.stranded + {t} + {w}, w);
    assert s.stranded + {t} + {w} - {w} == s.stranded + {t};
  }

  lemma WakeTalk(s: Kernel, e: nat, v: int)
    requires AllTalk(s, {}) && e < MAX_EVENTS && Distinct(s.waiting)
    requires s.waiting[e] != [] && Created(s, s.waiting[e][0]) && s.tds[s.waiting[e][0]].state == EventBlocked
    ensures AllTalk(Wake(s, e, v), {})
  {
    var s' := Wake(s, e, v);
    var w := s.waiting[e][0];
    assert Talks(s, w);
    assert Has(s.waiting, e, w);
    OneQueue(s.waiting, e, StageOf(s.log, w).call.event, w);
    StillUntouched(s.log, Woken(w, e, v), s.nextFree);
    PopHas(s.waiting, e);
    forall x: nat | x < s'.nextFree
      ensures Talks(s', x)
    {
      if x != w {
        NotConcerned(s.log, Woken(w, e, v), x);
        StillTalks(s, s', x);
      }
    }
  }

  lemma WakeRunning(s: Kernel, t: nat, e: nat, v: int)
    requires Running(s, t) && e < MAX_EVENTS && s.waiting[e] != []
    ensures s.waiting[e][0] < s.nextFree && Running(Wake(s, e, v), t)
  {
    assert Has(s.waiting, e, s.waiting[e][0]);
    WakePlaced(s, t, e, v);
    WakeTalk(s, e, v);
    FifoSame(s, Wake(s, e, v));
  }

  lemma WaitersKnown(s: Kernel, hand: set<nat>, e: nat)
    requires Placed(s, hand) && e < MAX_EVENTS
    ensures WaitersCreated(s, e)
  {
    assert forall i: nat :: i < |s.waiting[e]| ==> Has(s.waiting, e, s.waiting[e][i]);
  }

  lemma {:induction false} WakeAllRunning(s: Kernel, t: nat, e: nat, v: int)
    requires Running(s, t) && e < MAX_EVENTS
    ensures WaitersCreated(s, e) && Running(WakeAll(s, e, v), t)
    decreases |s.waiting[e]|
  {
    WaitersKnown(s, s.stranded + {t}, e);
    if s.waiting[e] != [] {
      WakeRunning(s, t, e, v);
      WakeAllRunning(Wake(s, e, v), t, e, v);
    }
  }

  lemma PreemptTalk(s: Kernel, t: nat)
    requires AllTalk(s, {}) && Created(s, t) && s.tds[t].state == Ready
    ensures AllTalk(PutReady(s, t), {})
  {
    forall x: nat | x < s.nextFree
      ensures Talks(PutReady(s, t), x)
    {
      StillTalks(s, PutReady(s, t), x);
    }
  }

  lemma PreemptGood(s: Kernel, t: nat)
    requires Running(s, t)
    ensures Good(PutReady(s, t), {})
  {
    PutReadyPlaced(s, PutReady(s, t), s.stranded + {t}, t);
    assert s.stranded + {t} - {t} == s.stranded + {};
    FifoSame(s, PutReady(s, t));
    PreemptTalk(s, t);
  }

  // ----- One step of the main loop -----

  lemma GoodSound(s: Kernel)
    requires Inv(s)
    ensures Sound(s)
  {
    assert Placed(s, s.stranded + if s.running.None? then {} else {s.running.value});
    MembersBelow(s.ready, s.nextFree);
    MembersBelow(s.sendq, s.nextFree);
    MembersBelow(s.waiting, s.nextFree);
  }

  lemma MembersBelow(v: Table, n: nat)
    requires forall k: nat, t: nat :: Has(v, k, t) ==> t < n
    ensures forall k: nat, i: nat :: k < |v| && i < |v[k]| ==> v[k][i] < n
  {
    assert forall k: nat, i: nat :: k < |v| && i < |v[k]| ==> Has(v, k, v[k][i]);
  }

  /** Which task runs and whether the loop goes on is not part of the core. */
  lemma SameCore(s: Kernel, s': Kernel, t: nat)
    requires Running(s, t) && s' == s.(running := s'.running, halted := s'.halted)
    ensures Running(s', t)
  {
    assert SamePlaces(s, s');
    SamePlacesPlaced(s, s', s.stranded + {t});
    FifoSame(s, s');
    forall x: nat | x < s.nextFree && x != t
      ensures Talks(s', x)
    {
      StillTalks(s, s', x);
    }
  }

  lemma PerformGood(s: Kernel, t: nat, call: Call)
    requires Calling(s, t, call) && Enabled(s, Syscall(call)) && !call.Exit? && !call.Quit?
    requires s.sendq[t] != [] ==> Created(s, s.sendq[t][0])
    requires Records(s) && s.log.Then? && s.log.event == Called(t, call)
    ensures Good(Finish(Perform(s, t, call), t), {})
  {
    match call
    case Pass => ReturnGood(s, t, call, 0);
    case Create(p) => CreateGood(s, t, p);
    case MyTid => ReturnGood(s, t, call, s.tds[t].tid);
    case MyParentTid => assert RecordOk(s, t); ReturnGood(s, t, call, KernelParentTid(s, t).1);
    case Send(to, msg, repLen) => SendGood(s, t, to, msg, repLen);
    case Receive(len) => ReceiveGood(s, t, len);
    case Reply(target, rep) => ReplyGood(s, t, target, rep);
    case AwaitEvent(e) => AwaitGood(s, t, e);
  }

  /** Whatever a running task or the hardware asks for, the invariant holds afterwards. */
  lemma HandleKeepsInv(s: Kernel, req: Request)
    requires Inv(s) && Records(s) && s.running.Some? && Enabled(s, req)
    ensures Sound(s) && Inv(Handle(s, req)) && Records(Handle(s, req))
  {
    GoodSound(s);
    var t := s.running.value;
    var s0 := s.(running := None);
    SameCore(s, s0, t);
    RecordsSame(s, s0);
    match req
    case Interrupt(e, v) => InterruptKeeps(s0, t, e, v);
    case Syscall(call) =>
      if call.Quit? {
        SameCore(s, Handle(s, req), t);
        RecordsSame(s, Handle(s, req));
      } else {
        CallKeeps(s0, t, call);
      }
  }

  lemma InterruptKeeps(s: Kernel, t: nat, e: nat, v: int)
    requires Running(s, t) && Records(s) && Source(e)
    ensures WaitersCreated(s, e)
    ensures Good(HandleInterrupt(s, t, e, v), {}) && Records(HandleInterrupt(s, t, e, v))
    ensures HandleInterrupt(s, t, e, v).running == s.running
  {
    WakeAllRunning(s, t, e, v);
    PreemptGood(WakeAll(s, e, v), t);
    InterruptRecords(s, t, e, v);
  }

  lemma PerformKeeps(s: Kernel, t: nat, call: Call)
    requires Calling(s, t, call) && Enabled(s, Syscall(call)) && !call.Exit? && !call.Quit?
    requires s.sendq[t] != [] ==> Created(s, s.sendq[t][0])
    requires Records(s) && s.log.Then? && s.log.event == Called(t, call)
    ensures Good(Finish(Perform(s, t, call), t), {}) && Records(Finish(Perform(s, t, call), t))
  {
    PerformGood(s, t, call);
    assert s.sendq[t] != [] ==> s.sendq[t][0] != t by {
      if s.sendq[t] != [] { assert Has(s.sendq, t, s.sendq[t][0]); }
    }
    PerformRecords(s, t, call);
  }

  lemma CallKeeps(s: Kernel, t: nat, call: Call)
    requires Running(s, t) && Records(s) && Enabled(s, Syscall(call)) && !call.Quit?
    requires s.sendq[t] != [] ==> Created(s, s.sendq[t][0])
    ensures Good(HandleCall(s, t, call), {}) && Records(HandleCall(s, t, call))
    ensures HandleCall(s, t, call).running == s.running
  {
    var s1 := Note(s, Called(t, call));
    CallStarts(s, t, call);
    CallRecords(s, t, call);
    if call.Exit? {
      ExitGood(s1, t);
      ExitRecords(s1, t);
    } else {
      PerformKeeps(s1, t, call);
    }
  }
}
