/** The kernel's invariant, and the requests that change a message queue: every one
    leaves the invariant intact. */
module KernelInvariant {

  import opened Bytes
  import opened Tables
  import opened KernelTypes
  import opened KernelSpec
  import opened KernelPlacement
  import opened KernelHistory

  /** Tasks lost by a failed Create stay READY, those lost by a failed Receive stay
      RECEIVE_BLOCKED; a task waiting in Receive has nobody in its send queue. */
  ghost predicate Calm(s: Kernel) {
    && Shape(s)
    && (forall t: nat :: t in s.stranded ==>
          t < s.nextFree && (s.tds[t].state == Ready || s.tds[t].state == ReceiveBlocked))
    && (forall t: nat :: t < s.nextFree && s.tds[t].state == SendBlocked ==> s.sendq[t] == [])
  }

  /** The invariant while the kernel holds exactly the stranded tasks and `hand`;
      tasks in `hand` need not agree with the history yet. */
  ghost predicate Good(s: Kernel, hand: set<nat>) {
    Placed(s, s.stranded + hand) && hand !! s.stranded && Calm(s) && Fifo(s) && AllTalk(s, hand)
  }

  ghost predicate Inv(s: Kernel) {
    if s.running.None? then Good(s, {})
    else
      var t := s.running.value;
      Good(s, {t}) && s.tds[t].state == Ready && Talks(s, t)
  }

  /** Task `t` was running and has just made `call`. */
  ghost predicate Calling(s: Kernel, t: nat, call: Call) {
    Good(s, {t}) && s.tds[t].state == Ready && StageOf(s.log, t) == InCall(call)
  }

  /** The final write of the result into the caller's slot. */
  function Finish(r: (Kernel, int), t: nat): (s: Kernel)
    requires Created(r.0, t)
    ensures Shape(s) && s.nextFree == r.0.nextFree
  {
    SetSlot(r.0, t, r.1)
  }

  /** Neither queues, outboxes nor message events change. */
  lemma FifoSame(s: Kernel, s': Kernel)
    requires Fifo(s) && Shape(s') && s'.sendq == s.sendq
    requires forall r: nat :: AcceptedFor(s'.log, r) == AcceptedFor(s.log, r) && TakenBy(s'.log, r) == TakenBy(s.log, r)
    requires forall r: nat, x: nat :: Has(s.sendq, r, x) ==> x < MAX_TASKS && s'.tds[x].outbox == s.tds[x].outbox
    ensures Fifo(s')
  {
    forall r: nat | r < MAX_TASKS
      ensures Balanced(s'.log, s'.tds, s'.sendq[r], r)
    {
      assert Balanced(s.log, s.tds, s.sendq[r], r);
      assert forall i: nat :: i < |s.sendq[r]| ==> Has(s.sendq, r, s.sendq[r][i]);
      BalancedSame(s.log, s'.log, s.tds, s'.tds, s.sendq[r], r);
    }
  }

  // ----- Calls that return at once -----

  lemma ReturnPlaced(s: Kernel, t: nat, v: int)
    requires Placed(s, s.stranded + {t}) && t !in s.stranded
    ensures Placed(Finish(Return(s, t, v), t), s.stranded + {})
  {
    var s' := Finish(Return(s, t, v), t);
    PutReadyPlaced(s, s', s.stranded + {t}, t);
    assert s.stranded + {t} - {t} == s.stranded + {};
  }

  lemma ReturnTalk(s: Kernel, s': Kernel, t: nat, v: int)
    requires AllTalk(s, {t}) && Created(s, t) && StageOf(s.log, t).InCall? && Immediate(s.log, t, StageOf(s.log, t).call, v)
    requires Shape(s') && s'.nextFree == s.nextFree && s'.log == Then(s.log, Returned(t, v))
    requires s'.sendq == s.sendq && s'.waiting == s.waiting && s'.stranded - {t} == s.stranded - {t}
    requires s'.tds[t].state == Ready && s'.tds[t].slot == v
    requires forall x: nat :: x < s.nextFree && x != t ==> s'.tds[x] == s.tds[x]
    ensures AllTalk(s', {})
  {
    StillUntouched(s.log, Returned(t, v), s.nextFree);
    forall x: nat | x < s'.nextFree
      ensures Talks(s', x)
    {
      if x != t {
        NotConcerned(s.log, Returned(t, v), x);
        assert x in s.stranded <==> x in s.stranded - {t};
        assert x in s'.stranded <==> x in s'.stranded - {t};
        StillTalks(s, s', x);
      }
    }
  }

  lemma ReturnFifo(s: Kernel, t: nat, v: int)
    requires Fifo(s) && Created(s, t)
    ensures Fifo(Finish(Return(s, t, v), t))
  {
    forall r: nat | r < MAX_TASKS
      ensures Balanced(Then(s.log, Returned(t, v)), Finish(Return(s, t, v), t).tds, s.sendq[r], r)
    {
      assert Balanced(s.log, s.tds, s.sendq[r], r);
      BalancedSame(s.log, Then(s.log, Returned(t, v)), s.tds, Finish(Return(s, t, v), t).tds, s.sendq[r], r);
    }
  }

  lemma ReturnGood(s: Kernel, t: nat, call: Call, v: int)
    requires Calling(s, t, call) && Immediate(s.log, t, call, v)
    ensures Good(Finish(Return(s, t, v), t), {})
  {
    var s' := Finish(Return(s, t, v), t);
    ReturnPlaced(s, t, v);
    ReturnFifo(s, t, v);
    ReturnTalk(s, s', t, v);
  }

  lemma StrandPlaced(s: Kernel, t: nat, v: int)
    requires Placed(s, s.stranded + {t})
    ensures Placed(Finish(Strand(s, t, v), t), s.stranded + {t})
  {
    SamePlacesPlaced(s, Finish(Strand(s, t, v), t), s.stranded + {t});
  }

  lemma StrandFifo(s: Kernel, t: nat, v: int)
    requires Fifo(s) && Created(s, t)
    ensures Fifo(Finish(Strand(s, t, v), t))
  {
    var s' := Finish(Strand(s, t, v), t);
    forall r: nat | r < MAX_TASKS
      ensures Balanced(s'.log, s'.tds, s.sendq[r], r)
    {
      assert Balanced(s.log, s.tds, s.sendq[r], r);
      BalancedSame(s.log, s'.log, s.tds, s'.tds, s.sendq[r], r);
    }
  }

  lemma StrandGood(s: Kernel, t: nat, call: Call, v: int)
    requires Calling(s, t, call) && Immediate(s.log, t, call, v)
    ensures Good(Finish(Strand(s, t, v), t), {})
  {
    var s' := Finish(Strand(s, t, v), t);
    assert s'.stranded + {} == s.stranded + {t};
    StrandPlaced(s, t, v);
    StrandFifo(s, t, v);
    ReturnTalk(s, s', t, v);
  }

  // ----- Create -----

  lemma NewReadyPlaced(s: Kernel, hand: set<nat>, t: nat, priority: nat)
    requires Placed(s, hand) && s.nextFree < MAX_TASKS && priority < PRIORITIES
    ensures s.sendq[s.nextFree] == []
    ensures Placed(PutReady(NewTask(s, t, priority), s.nextFree), hand)
  {
    var n := s.nextFree;
    NewTaskPlaced(s, hand, t, priority);
    PutReadyPlaced(NewTask(s, t, priority), PutReady(NewTask(s, t, priority), n), hand + {n}, n);
    assert hand + {n} - {n} == hand;
  }

  lemma NewReadyTalk(s: Kernel, t: nat, priority: nat)
    requires AllTalk(s, {t}) && s.nextFree < MAX_TASKS && priority < PRIORITIES && s.sendq[s.nextFree] == []
    ensures AllTalk(PutReady(NewTask(s, t, priority), s.nextFree), {t})
  {
    var s' := PutReady(NewTask(s, t, priority), s.nextFree);
    assert s'.sendq == s.sendq;
    forall x: nat | x < s'.nextFree && x != t
      ensures Talks(s', x)
    {
      if x != s.nextFree { StillTalks(s, s', x); }
    }
  }

  /** A fresh descriptor in its ready queue; the caller is still held. */
  lemma NewReadyCalling(s: Kernel, t: nat, call: Call, priority: nat)
    requires Calling(s, t, call) && s.nextFree < MAX_TASKS && priority < PRIORITIES
    ensures Calling(PutReady(NewTask(s, t, priority), s.nextFree), t, call)
  {
    var s' := PutReady(NewTask(s, t, priority), s.nextFree);
    NewReadyPlaced(s, s.stranded + {t}, t, priority);
    assert s'.sendq == s.sendq;
    FifoSame(s, s');
    NewReadyTalk(s, t, priority);
  }

  lemma CreateGood(s: Kernel, t: nat, priority: int)
    requires Calling(s, t, Create(priority)) && s.nextFree == TaskCount(s.log)
    ensures Good(Finish(KernelCreate(s, t, priority), t), {})
  {
    var call := Create(priority);
    if priority < 0 || priority > 63 {
      StrandGood(s, t, call, -1);
    } else if s.nextFree >= MAX_TASKS {
      StrandGood(s, t, call, -2);
    } else {
      NewReadyCalling(s, t, call, priority);
      ReturnGood(PutReady(NewTask(s, t, priority), s.nextFree), t, call, s.nextFree);
    }
  }

  // ----- Send -----

  function Handed(s: Kernel, t: nat, to: nat, msg: seq<Byte>, repLen: nat): (s': Kernel)
    requires Created(s, t) && Created(s, to)
    ensures Shape(s') && s'.nextFree == s.nextFree
  {
    SetSlot(HandOver(s, t, to, msg, repLen), t, 0)
  }

  lemma HandedPlaced(s: Kernel, t: nat, to: nat, msg: seq<Byte>, repLen: nat)
    requires Placed(s, s.stranded + {t}) && t !in s.stranded
    requires to < s.nextFree && to != t && to !in s.stranded && s.tds[to].state == SendBlocked
    ensures Placed(Handed(s, t, to, msg, repLen), s.stranded + {})
  {
    var hand := s.stranded + {t};
    GrabPlaced(s, hand, to);
    PutReadyPlaced(s, PutReady(s, to), hand + {to}, to);
    assert hand + {to} - {to} == hand;
    HeldStatePlaced(PutReady(s, to), Handed(s, t, to, msg, repLen), hand, t);
    assert hand - {t} == s.stranded + {};
  }

  lemma HandedFifo(s: Kernel, t: nat, to: nat, msg: seq<Byte>, repLen: nat)
    requires Fifo(s) && Created(s, t) && Created(s, to) && s.sendq[to] == []
    ensures Fifo(Handed(s, t, to, msg, repLen))
  {
    var s' := Handed(s, t, to, msg, repLen);
    forall r: nat | r < MAX_TASKS
      ensures Balanced(s'.log, s'.tds, s'.sendq[r], r)
    {
      assert Balanced(s.log, s.tds, s.sendq[r], r);
      if r == to {
        BalancedDirect(s.log, s.tds, s'.tds, t, to, msg);
      } else {
        BalancedSame(s.log, s'.log, s.tds, s'.tds, s.sendq[r], r);
      }
    }
  }

  lemma HandedTalk(s: Kernel, t: nat, to: nat, msg: seq<Byte>, repLen: nat)
    requires AllTalk(s, {t}) && Created(s, t) && Created(s, to) && to != t
    requires StageOf(s.log, t) == InCall(Send(to, msg, repLen))
    requires s.tds[to].state == SendBlocked && s.tds[to].msgLen == |msg|
    ensures AllTalk(Handed(s, t, to, msg, repLen), {})
  {
    var s' := Handed(s, t, to, msg, repLen);
    assert Talks(s, to);
    var h1 := Then(s.log, Accepted(t, to, msg));
    StillUntouched(s.log, Accepted(t, to, msg), s.nextFree);
    StillUntouched(h1, Taken(t, to, msg), s.nextFree);
    NotConcerned(s.log, Accepted(t, to, msg), to);
    assert Legal(h1);
    assert StageOf(h1, t) == Queued(to, msg, repLen);
    assert Allowed(h1, Taken(t, to, msg));
    forall x: nat | x < s'.nextFree
      ensures Talks(s', x)
    {
      if x != t && x != to {
        NotConcerned(s.log, Accepted(t, to, msg), x);
        NotConcerned(h1, Taken(t, to, msg), x);
        StillTalks(s, s', x);
      }
    }
  }

  lemma HandedCalm(s: Kernel, t: nat, to: nat, msg: seq<Byte>, repLen: nat)
    requires Calm(s) && Created(s, t) && Created(s, to) && t !in s.stranded
    ensures Calm(Handed(s, t, to, msg, repLen))
  {
  }

  lemma HandedGood(s: Kernel, t: nat, to: nat, msg: seq<Byte>, repLen: nat)
    requires Calling(s, t, Send(to, msg, repLen))
    requires to < s.nextFree && s.tds[to].state == SendBlocked && s.tds[to].msgLen == |msg|
    ensures Good(Handed(s, t, to, msg, repLen), {})
  {
    HandedPlaced(s, t, to, msg, repLen);
    HandedFifo(s, t, to, msg, repLen);
    HandedTalk(s, t, to, msg, repLen);
    HandedCalm(s, t, to, msg, repLen);
    assert Handed(s, t, to, msg, repLen).stranded == s.stranded;
  }

  function Enlisted(s: Kernel, t: nat, to: nat, msg: seq<Byte>, repLen: nat): (s': Kernel)
    requires Created(s, t) && Created(s, to)
    ensures Shape(s') && s'.nextFree == s.nextFree
  {
    SetSlot(Enlist(s, t, to, msg, repLen), t, 0)
  }

  lemma EnlistedFifo(s: Kernel, t: nat, to: nat, msg: seq<Byte>, repLen: nat)
    requires Fifo(s) && Created(s, t) && Created(s, to) && Absent(s.sendq, t)
    ensures Fifo(Enlisted(s, t, to, msg, repLen))
  {
    var s' := Enlisted(s, t, to, msg, repLen);
    CountHas(s.sendq, t);
    forall r: nat | r < MAX_TASKS
      ensures Balanced(s'.log, s'.tds, s'.sendq[r], r)
    {
      var q := s.sendq[r];
      assert Balanced(s.log, s.tds, q, r);
      assert forall i: nat :: i < |q| ==> Has(s.sendq, r, q[i]);
      BalancedSame(s.log, s.log, s.tds, s'.tds, q, r);
      if r == to {
        BalancedJoin(s.log, s'.tds, q, t, r, msg);
      } else {
        BalancedSame(s.log, s'.log, s'.tds, s'.tds, q, r);
      }
    }
  }

  lemma EnlistedTalk(s: Kernel, t: nat, to: nat, msg: seq<Byte>, repLen: nat)
    requires AllTalk(s, {t}) && Created(s, t) && Created(s, to) && t !in s.stranded
    requires StageOf(s.log, t) == InCall(Send(to, msg, repLen))
    ensures AllTalk(Enlisted(s, t, to, msg, repLen), {})
  {
    var s' := Enlisted(s, t, to, msg, repLen);
    var e := Accepted(t, to, msg);
    StillUntouched(s.log, e, s.nextFree);
    PushHas(s.sendq, to, t);
    forall x: nat | x < s'.nextFree
      ensures Talks(s', x)
    {
      if x != t {
        NotConcerned(s.log, e, x);
        StillTalks(s, s', x);
      }
    }
  }

  lemma EnlistedGood(s: Kernel, t: nat, to: nat, msg: seq<Byte>, repLen: nat)
    requires Calling(s, t, Send(to, msg, repLen))
    requires to < s.nextFree && s.tds[to].state != SendBlocked
    ensures Good(Enlisted(s, t, to, msg, repLen), {})
  {
    var s' := Enlisted(s, t, to, msg, repLen);
    assert Absent(s.sendq, t) by { HandAbsent(s, s.stranded + {t}, t); }
    EnlistPlaced(s, s', s.stranded + {t}, t, to);
    assert s.stranded + {t} - {t} == s.stranded + {};
    EnlistedFifo(s, t, to, msg, repLen);
    EnlistedTalk(s, t, to, msg, repLen);
  }

  lemma SendGood(s: Kernel, t: nat, to: nat, msg: seq<Byte>, repLen: nat)
    requires Calling(s, t, Send(to, msg, repLen)) && Addressable(s, to) && s.nextFree == TaskCount(s.log)
    ensures Good(Finish(KernelSend(s, t, to, msg, repLen), t), {})
  {
    var call := Send(to, msg, repLen);
    if s.tds[to].tid != to {
      ReturnGood(s, t, call, -1);
    } else if s.tds[to].state == SendBlocked {
      if s.tds[to].msgLen != |msg| {
        assert Talks(s, to);
        ReturnGood(s, t, call, -2);
      } else {
        HandedGood(s, t, to, msg, repLen);
      }
    } else {
      EnlistedGood(s, t, to, msg, repLen);
    }
  }

  // ----- Receive -----

  /** Taking the oldest sender out of the queue of `t`: the history has to say so. */
  lemma PopFifo(s: Kernel, s': Kernel, t: nat, e: Event)
    requires Fifo(s) && t < MAX_TASKS && s.sendq[t] != [] && Shape(s') && s.sendq[t][0] < MAX_TASKS
    requires s'.sendq == Pop(s.sendq, t) && s'.log == Then(s.log, e)
    requires e == Taken(s.sendq[t][0], t, s.tds[s.sendq[t][0]].outbox)
          || e == Dropped(s.sendq[t][0], t, s.tds[s.sendq[t][0]].outbox)
    requires forall x: nat :: x < MAX_TASKS ==> s'.tds[x].outbox == s.tds[x].outbox
    ensures Fifo(s')
  {
    forall r: nat | r < MAX_TASKS
      ensures Balanced(s'.log, s'.tds, s'.sendq[r], r)
    {
      assert Balanced(s.log, s.tds, s.sendq[r], r);
      BalancedSame(s.log, s.log, s.tds, s'.tds, s.sendq[r], r);
      if r == t {
        BalancedLeave(s.log, s'.tds, s.sendq[r], r, e);
      } else {
        BalancedSame(s.log, s'.log, s'.tds, s'.tds, s.sendq[r], r);
      }
    }
  }

  /** The oldest sender is gone and its message thrown away; the caller is still held. */
  function Dropping(s: Kernel, t: nat, from: nat): (s': Kernel)
    requires Created(s, t) && s.sendq[t] != [] && Created(s, from)
    ensures Shape(s') && s'.nextFree == s.nextFree
  {
    Note(PopSend(s, t).(stranded := s.stranded + {from}), Dropped(from, t, s.tds[from].outbox))
  }

  lemma DroppingPlaced(s: Kernel, t: nat, from: nat)
    requires Placed(s, s.stranded + {t}) && t < s.nextFree
    requires s.sendq[t] != [] && Created(s, from) && from == s.sendq[t][0]
    ensures Placed(Dropping(s, t, from), s.stranded + {from} + {t})
  {
    PopSendPlaced(s, s.stranded + {t}, t);
    assert s.stranded + {from} + {t} == s.stranded + {t} + {from};
    SamePlacesPlaced(PopSend(s, t), Dropping(s, t, from), s.stranded + {t} + {from});
  }

  lemma DroppingTalk(s: Kernel, t: nat, from: nat, len: nat)
    requires AllTalk(s, {t}) && Created(s, t) && Created(s, from) && Distinct(s.sendq) && from !in s.stranded
    requires StageOf(s.log, t) == InCall(Receive(len)) && s.sendq[t] != [] && s.sendq[t][0] == from
    requires from != t && s.tds[from].state == ReceiveBlocked && s.tds[from].msgLen != len
    ensures AllTalk(Dropping(s, t, from), {t}) && StageOf(Dropping(s, t, from).log, t) == StageOf(s.log, t)
  {
    var s' := Dropping(s, t, from);
    var e := Dropped(from, t, s.tds[from].outbox);
    assert Talks(s, from);
    assert Has(s.sendq, t, from);
    OneQueue(s.sendq, t, StageOf(s.log, from).to, from);
    StillUntouched(s.log, e, s.nextFree);
    PopHas(s.sendq, t);
    forall x: nat | x < s'.nextFree && x != t
      ensures Talks(s', x)
    {
      if x != from {
        NotConcerned(s.log, e, x);
        StillTalks(s, s', x);
      }
    }
  }

  lemma DroppingCalling(s: Kernel, t: nat, from: nat, len: nat)
    requires Calling(s, t, Receive(len)) && Created(s, from)
    requires s.sendq[t] != [] && s.sendq[t][0] == from && s.tds[from].msgLen != len
    ensures Calling(Dropping(s, t, from), t, Receive(len))
  {
    var s' := Dropping(s, t, from);
    assert Has(s.sendq, t, from);
    DroppingPlaced(s, t, from);
    PopFifo(s, s', t, Dropped(from, t, s.tds[from].outbox));
    DroppingTalk(s, t, from, len);
  }

  function Collected(s: Kernel, t: nat, from: nat): (s': Kernel)
    requires Created(s, t) && s.sendq[t] != [] && Created(s, from)
    ensures Shape(s') && s'.nextFree == s.nextFree
  {
    SetSlot(Collect(s, t, from).0, t, from)
  }

  lemma CollectedPlaced(s: Kernel, t: nat, from: nat)
    requires Placed(s, s.stranded + {t}) && t !in s.stranded
    requires s.sendq[t] != [] && from == s.sendq[t][0] && Created(s, from)
    ensures Placed(Collected(s, t, from), s.stranded + {})
  {
    var hand := s.stranded + {t};
    assert Has(s.sendq, t, from);
    PopSendPlaced(s, hand, t);
    var s1 := PopSend(s, t);
    PutReadyPlaced(s1, PutReady(s1, t), hand + {from}, t);
    HeldStatePlaced(PutReady(s1, t), Collected(s, t, from), hand + {from} - {t}, from);
    assert hand + {from} - {t} - {from} == s.stranded + {};
  }

  lemma CollectedTalk(s: Kernel, t: nat, from: nat)
    requires AllTalk(s, {t}) && Created(s, t) && Created(s, from) && Distinct(s.sendq) && from !in s.stranded
    requires s.sendq[t] != [] && s.sendq[t][0] == from
    requires StageOf(s.log, t) == InCall(Receive(s.tds[from].msgLen))
    requires from != t && s.tds[from].state == ReceiveBlocked
    ensures AllTalk(Collected(s, t, from), {})
  {
    var s' := Collected(s, t, from);
    var e := Taken(from, t, s.tds[from].outbox);
    assert Talks(s, from);
    assert Has(s.sendq, t, from);
    OneQueue(s.sendq, t, StageOf(s.log, from).to, from);
    StillUntouched(s.log, e, s.nextFree);
    PopHas(s.sendq, t);
    forall x: nat | x < s'.nextFree
      ensures Talks(s', x)
    {
      if x != from && x != t {
        NotConcerned(s.log, e, x);
        StillTalks(s, s', x);
      }
    }
  }

  lemma CollectedFifo(s: Kernel, t: nat, from: nat)
    requires Fifo(s) && Created(s, t) && Created(s, from) && s.sendq[t] != [] && from == s.sendq[t][0]
    ensures Fifo(Collected(s, t, from))
  {
    PopFifo(s, Collected(s, t, from), t, Taken(from, t, s.tds[from].outbox));
  }

  lemma CollectedCalm(s: Kernel, t: nat, from: nat)
    requires Calm(s) && Created(s, t) && Created(s, from) && t !in s.stranded && from !in s.stranded
    requires s.sendq[t] != []
    ensures Calm(Collected(s, t, from))
  {
  }

  lemma CollectedGood(s: Kernel, t: nat, from: nat)
    requires Created(s, t) && Created(s, from) && s.sendq[t] != [] && from == s.sendq[t][0]
    requires Calling(s, t, Receive(s.tds[from].msgLen))
    ensures Good(Collected(s, t, from), {})
  {
    assert Has(s.sendq, t, from);
    CollectedPlaced(s, t, from);
    CollectedFifo(s, t, from);
    CollectedTalk(s, t, from);
    CollectedCalm(s, t, from);
    assert Collected(s, t, from).stranded == s.stranded;
  }

  lemma ListenGood(s: Kernel, t: nat, len: nat)
    requires Calling(s, t, Receive(len)) && s.sendq[t] == []
    ensures Good(Finish((Listen(s, t, len), 0), t), {})
  {
    var s' := Finish((Listen(s, t, len), 0), t);
    HeldStatePlaced(s, s', s.stranded + {t}, t);
    assert s.stranded + {t} - {t} == s.stranded + {};
    FifoSame(s, s');
    forall x: nat | x < s'.nextFree
      ensures Talks(s', x)
    {
      if x != t { StillTalks(s, s', x); }
    }
  }

  lemma ReceiveGood(s: Kernel, t: nat, len: nat)
    requires Calling(s, t, Receive(len))
    ensures s.sendq[t] != [] ==> Created(s, s.sendq[t][0])
    ensures Good(Finish(KernelReceive(s, t, len), t), {})
  {
    if s.sendq[t] == [] {
      ListenGood(s, t, len);
    } else {
      var from := s.sendq[t][0];
      assert Has(s.sendq, t, from);
      if s.tds[from].msgLen != len {
        DroppingCalling(s, t, from, len);
        ReturnGood(Dropping(s, t, from), t, Receive(len), -1);
      } else {
        CollectedGood(s, t, from);
      }
    }
  }
}
