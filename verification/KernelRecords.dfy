/** What the kernel keeps about every task besides its place: parent, priority, and the
    message and reply buffers, all as the history says. */
module KernelRecords {

  import opened Bytes
  import opened Options
  import opened KernelTypes
  import opened KernelSpec
  import opened KernelHistory
  import opened KernelInvariant

  ghost predicate BuffersOk(td: Task, mail: Option<Mail>, rep: Option<seq<Byte>>) {
    && (mail.Some? ==> td.from == mail.value.from && td.inbox == mail.value.msg)
    && (rep.Some? ==> td.reply == rep.value)
  }

  ghost predicate BirthOk(td: Task, b: Birth) {
    td.priority == b.priority && b.parent == if td.parent.None? then -1 else td.parent.value
  }

  ghost predicate RecordOk(s: Kernel, t: nat)
    requires t < |s.tds|
  {
    && BuffersOk(s.tds[t], LastMail(s.log, t), LastReply(s.log, t))
    && (t < s.nextFree ==> BirthOk(s.tds[t], BirthOf(s.log, t)))
  }

  ghost predicate Records(s: Kernel) {
    Shape(s) && s.nextFree == TaskCount(s.log) && forall t: nat :: t < MAX_TASKS ==> RecordOk(s, t)
  }

  predicate SameRecord(td: Task, td': Task) {
    && td'.parent == td.parent && td'.priority == td.priority
    && td'.from == td.from && td'.inbox == td.inbox && td'.reply == td.reply
  }

  /** Only places, states, slots and outgoing messages change, and no event or one that
      says nothing about the records. */
  lemma RecordsSame(s: Kernel, s': Kernel)
    requires Records(s) && Shape(s') && s'.nextFree == s.nextFree
    requires forall t: nat :: t < MAX_TASKS ==> SameRecord(s.tds[t], s'.tds[t])
    requires s'.log == s.log ||
      (s'.log.Then? && s'.log.past == s.log && !s'.log.event.Taken? && !s'.log.event.Answered?
       && !Creates(s.log, s'.log.event))
    ensures Records(s')
  {
    forall t: nat | t < MAX_TASKS
      ensures RecordOk(s', t)
    {
      assert RecordOk(s, t) && SameRecord(s.tds[t], s'.tds[t]);
    }
  }

  /** A message arrives in the buffers of its receiver. */
  lemma RecordsTaken(s: Kernel, s': Kernel, from: nat, to: nat, msg: seq<Byte>)
    requires Records(s) && Shape(s') && s'.nextFree == s.nextFree && to < MAX_TASKS
    requires s'.log == Then(s.log, Taken(from, to, msg))
    requires s'.tds[to].from == from && s'.tds[to].inbox == msg
    requires SameRecord(s.tds[to].(from := from, inbox := msg), s'.tds[to])
    requires forall t: nat :: t < MAX_TASKS && t != to ==> SameRecord(s.tds[t], s'.tds[t])
    ensures Records(s')
  {
    forall t: nat | t < MAX_TASKS
      ensures RecordOk(s', t)
    {
      assert RecordOk(s, t);
      if t != to { assert SameRecord(s.tds[t], s'.tds[t]); }
    }
  }

  /** A reply arrives in the buffer of its target. */
  lemma RecordsAnswered(s: Kernel, s': Kernel, target: nat, server: nat, rep: seq<Byte>)
    requires Records(s) && Shape(s') && s'.nextFree == s.nextFree && target < MAX_TASKS
    requires s'.log == Then(s.log, Answered(target, server, rep))
    requires SameRecord(s.tds[target].(reply := rep), s'.tds[target])
    requires forall t: nat :: t < MAX_TASKS && t != target ==> SameRecord(s.tds[t], s'.tds[t])
    ensures Records(s')
  {
    forall t: nat | t < MAX_TASKS
      ensures RecordOk(s', t)
    {
      assert RecordOk(s, t);
      if t != target { assert SameRecord(s.tds[t], s'.tds[t]); }
    }
  }

  lemma ReturnRecords(s: Kernel, t: nat, v: int)
    requires Records(s) && Created(s, t) && !(StageOf(s.log, t).InCall? && StageOf(s.log, t).call.Create? && v >= 0)
    ensures Records(Finish(Return(s, t, v), t))
  {
    RecordsSame(s, Finish(Return(s, t, v), t));
  }

  /** A new task has its creator as parent and the priority it was given. */
  lemma CreateRecords(s: Kernel, t: nat, priority: int)
    requires Records(s) && Created(s, t) && StageOf(s.log, t) == InCall(Create(priority))
    ensures Records(Finish(KernelCreate(s, t, priority), t))
  {
    var s' := Finish(KernelCreate(s, t, priority), t);
    if priority < 0 || priority > 63 || s.nextFree >= MAX_TASKS {
      RecordsSame(s, s');
    } else {
      forall x: nat | x < MAX_TASKS
        ensures RecordOk(s', x)
      {
        assert RecordOk(s, x);
      }
    }
  }

  lemma HandOverRecords(s: Kernel, t: nat, to: nat, msg: seq<Byte>, repLen: nat)
    requires Records(s) && Created(s, t) && Created(s, to) && t != to
    ensures Records(Finish((HandOver(s, t, to, msg, repLen), 0), t))
  {
    var s1 := Note(s, Accepted(t, to, msg));
    RecordsSame(s, s1);
    RecordsTaken(s1, Finish((HandOver(s, t, to, msg, repLen), 0), t), t, to, msg);
  }

  lemma EnlistRecords(s: Kernel, t: nat, to: nat, msg: seq<Byte>, repLen: nat)
    requires Records(s) && Created(s, t) && Created(s, to)
    ensures Records(Finish((Enlist(s, t, to, msg, repLen), 0), t))
  {
    RecordsSame(s, Finish((Enlist(s, t, to, msg, repLen), 0), t));
  }

  lemma SendRecords(s: Kernel, t: nat, to: nat, msg: seq<Byte>, repLen: nat)
    requires Records(s) && Created(s, t) && Addressable(s, to) && s.tds[t].state == Ready
    requires StageOf(s.log, t) == InCall(Send(to, msg, repLen))
    ensures Records(Finish(KernelSend(s, t, to, msg, repLen), t))
  {
    if s.tds[to].tid != to {
      ReturnRecords(s, t, -1);
    } else if s.tds[to].state != SendBlocked {
      EnlistRecords(s, t, to, msg, repLen);
    } else if s.tds[to].msgLen != |msg| {
      ReturnRecords(s, t, -2);
    } else {
      HandOverRecords(s, t, to, msg, repLen);
    }
  }

  lemma ReceiveRecords(s: Kernel, t: nat, len: nat)
    requires Records(s) && Created(s, t) && StageOf(s.log, t) == InCall(Receive(len))
    requires s.sendq[t] != [] ==> Created(s, s.sendq[t][0]) && s.sendq[t][0] != t
    ensures Records(Finish(KernelReceive(s, t, len), t))
  {
    var s' := Finish(KernelReceive(s, t, len), t);
    if s.sendq[t] == [] {
      RecordsSame(s, s');
    } else {
      var from := s.sendq[t][0];
      if s.tds[from].msgLen == len {
        RecordsTaken(s, s', from, t, s.tds[from].outbox);
      } else {
        RecordsSame(s, Dropping(s, t, from));
        ReturnRecords(Dropping(s, t, from), t, -1);
      }
    }
  }

  lemma AnswerRecords(s: Kernel, t: nat, target: nat, rep: seq<Byte>)
    requires Records(s) && Created(s, t) && Created(s, target) && StageOf(s.log, t) == InCall(Reply(target, rep))
    ensures Records(Finish(Answer(s, t, target, rep), t))
  {
    var s1 := Answering(s, t, target, rep);
    RecordsAnswered(s, s1, target, t, rep);
    RecordsSame(s1, Finish(Answer(s, t, target, rep), t));
  }

  lemma ReplyRecords(s: Kernel, t: nat, target: nat, rep: seq<Byte>)
    requires Records(s) && Created(s, t) && Addressable(s, target) && StageOf(s.log, t) == InCall(Reply(target, rep))
    ensures Records(Finish(KernelReply(s, t, target, rep), t))
  {
    if s.tds[target].tid != target {
      ReturnRecords(s, t, -1);
    } else if s.tds[target].repLen != |rep| {
      ReturnRecords(s, t, -2);
    } else {
      AnswerRecords(s, t, target, rep);
    }
  }

  lemma AwaitRecords(s: Kernel, t: nat, event: int)
    requires Records(s) && Created(s, t) && StageOf(s.log, t) == InCall(AwaitEvent(event))
    ensures Records(Finish(KernelAwait(s, t, event), t))
  {
    RecordsSame(s, Finish(KernelAwait(s, t, event), t));
  }

  lemma ExitRecords(s: Kernel, t: nat)
    requires Records(s) && Created(s, t)
    ensures Records(KernelExit(s, t))
  {
    RecordsSame(s, KernelExit(s, t));
  }

  lemma PerformRecords(s: Kernel, t: nat, call: Call)
    requires Records(s) && Created(s, t) && StageOf(s.log, t) == InCall(call) && s.tds[t].state == Ready
    requires s.sendq[t] != [] ==> Created(s, s.sendq[t][0]) && s.sendq[t][0] != t
    requires Enabled(s, Syscall(call)) && !call.Exit? && !call.Quit?
    ensures Records(Finish(Perform(s, t, call), t))
  {
    match call
    case Pass => ReturnRecords(s, t, 0);
    case Create(p) => CreateRecords(s, t, p);
    case MyTid => ReturnRecords(s, t, s.tds[t].tid);
    case MyParentTid => ReturnRecords(s, t, KernelParentTid(s, t).1);
    case Send(to, msg, repLen) => SendRecords(s, t, to, msg, repLen);
    case Receive(len) => ReceiveRecords(s, t, len);
    case Reply(target, rep) => ReplyRecords(s, t, target, rep);
    case AwaitEvent(e) => AwaitRecords(s, t, e);
  }

  lemma {:induction false} WakeAllRecords(s: Kernel, e: nat, v: int)
    requires Records(s) && e < MAX_EVENTS && WaitersCreated(s, e)
    ensures Records(WakeAll(s, e, v))
    decreases |s.waiting[e]|
  {
    if s.waiting[e] != [] {
      RecordsSame(s, Wake(s, e, v));
      WakeAllRecords(Wake(s, e, v), e, v);
    }
  }

  lemma InterruptRecords(s: Kernel, t: nat, e: nat, v: int)
    requires Records(s) && Created(s, t) && Source(e) && WaitersCreated(s, e)
    ensures Records(HandleInterrupt(s, t, e, v))
  {
    WakeAllRecords(s, e, v);
    RecordsSame(WakeAll(s, e, v), HandleInterrupt(s, t, e, v));
  }

  lemma CallRecords(s: Kernel, t: nat, call: Call)
    requires Records(s) && Created(s, t)
    ensures Records(Note(s, Called(t, call)))
  {
    RecordsSame(s, Note(s, Called(t, call)));
  }

  lemma InitRecords(memory: seq<Task>)
    requires |memory| == MAX_TASKS
    ensures Records(Init(memory))
  {
  }
}
