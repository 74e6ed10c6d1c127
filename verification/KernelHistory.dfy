/** What the history says about every task, without looking at the kernel: how far its
    current system call has come, which value that call returned, and which messages a
    receiver was sent and took. */
module KernelHistory {

  import opened Bytes
  import opened Options
  import opened Tables
  import opened KernelTypes
  import opened KernelSpec

  /** How far a task's current call has come. */
  datatype Stage =
    | Idle                                             // no call outstanding
    | InCall(call: Call)                               // called, nothing happened yet
    | Queued(to: nat, msg: seq<Byte>, repLen: nat)     // its message was accepted
    | Held(repLen: nat)                                // its message was received
    | Lost                                             // its message was thrown away

  function Moved(e: Event, t: nat, st: Stage): Stage {
    match e
    case Called(w, c) => if w == t then InCall(c) else st
    case Accepted(f, to, m) =>
      if f == t then Queued(to, m, if st.InCall? && st.call.Send? then st.call.repLen else 0) else st
    case Taken(f, to, m) =>
      if f == t then Held(if st.Queued? then st.repLen else 0) else if to == t then Idle else st
    case Dropped(f, to, m) => if f == t then Lost else st
    case Answered(w, _, _) => if w == t then Idle else st
    case Woken(w, _, _) => if w == t then Idle else st
    case Returned(w, _) => if w == t then Idle else st
  }

  function StageOf(h: History, t: nat): Stage {
    if h.Boot? then Idle else Moved(h.event, t, StageOf(h.past, t))
  }

  /** The value event `e` gives to task `t` as the result of its call, if it ends one. */
  function Ends(e: Event, t: nat): Option<int> {
    match e
    case Taken(f, to, _) => if to == t then Some(f) else None
    case Answered(w, _, _) => if w == t then Some(0) else None
    case Woken(w, _, v) => if w == t then Some(v) else None
    case Returned(w, v) => if w == t then Some(v) else None
    case _ => None
  }

  /** The result of the last call of `t` that is over (0 before the first). */
  function ResultOf(h: History, t: nat): int {
    if h.Boot? then 0
    else if Ends(h.event, t).Some? then Ends(h.event, t).value
    else ResultOf(h.past, t)
  }

  /** The rules of the rendezvous: when an event may happen after history `h`. */
  predicate Allowed(h: History, e: Event) {
    match e
    case Called(w, c) => StageOf(h, w) == Idle && w < TaskCount(h)
    case Accepted(f, to, m) =>
      var st := StageOf(h, f);
      st.InCall? && st.call.Send? && st.call.to == to && st.call.msg == m
    case Taken(f, to, m) =>
      var st := StageOf(h, f);
      f != to && st.Queued? && st.to == to && st.msg == m && StageOf(h, to) == InCall(Receive(|m|))
    case Dropped(f, to, m) =>
      var st, rt := StageOf(h, f), StageOf(h, to);
      && f != to && st.Queued? && st.to == to && st.msg == m
      && rt.InCall? && rt.call.Receive? && rt.call.len != |m|
    case Answered(w, server, rep) =>
      StageOf(h, w) == Held(|rep|) && StageOf(h, server) == InCall(Reply(w, rep))
    case Woken(w, e, v) => StageOf(h, w) == InCall(AwaitEvent(e))
    case Returned(w, v) => StageOf(h, w).InCall? && Immediate(h, w, StageOf(h, w).call, v)
  }

  /** When a call of task `w` returns `v` without blocking, after history `h`. */
  predicate Immediate(h: History, w: nat, call: Call, v: int) {
    match call
    case Pass => v == 0
    case Create(p) =>
      v == if p < 0 || p > 63 then -1 else if TaskCount(h) >= 64 then -2 else TaskCount(h)
    case MyTid => v == w
    case MyParentTid => v == BirthOf(h, w).parent
    case Send(to, msg, _) =>
      if to >= TaskCount(h) then v == -1
      else v == -2 && StageOf(h, to).InCall? && StageOf(h, to).call.Receive? && StageOf(h, to).call.len != |msg|
    case Receive(_) => v == -1 && h.Then? && h.event.Dropped? && h.event.to == w
    case Reply(target, rep) =>
      if target >= TaskCount(h) then v == -1
      else if h.Then? && h.event == Answered(target, w, rep) then v == 0
      else v == -2 && StageOf(h, target) != Held(|rep|)
    case AwaitEvent(e) => v == -1 && (e < 0 || e >= 16)
    case Exit => false
    case Quit => false
  }

  // ----- Tasks -----

  /** Event `e` after history `h` is the return of a Create that made a task. */
  predicate Creates(h: History, e: Event) {
    e.Returned? && e.value >= 0 && StageOf(h, e.who).InCall? && StageOf(h, e.who).call.Create?
  }

  /** The number of tasks: two at boot, one more for every Create that did not fail. */
  function TaskCount(h: History): nat {
    if h.Boot? then 2 else TaskCount(h.past) + if Creates(h.past, h.event) then 1 else 0
  }

  datatype Birth = Birth(parent: int, priority: int)

  /** Who created task `t`, and with which priority; -1 stands for no parent. */
  function BirthOf(h: History, t: nat): Birth {
    if h.Boot? then (if t == 0 then Birth(-1, 1) else Birth(0, 28))
    else if Creates(h.past, h.event) && h.event.value == t then
      Birth(h.event.who, StageOf(h.past, h.event.who).call.priority)
    else BirthOf(h.past, t)
  }

  /** The last message task `t` received. */
  function LastMail(h: History, t: nat): Option<Mail> {
    if h.Boot? then None
    else if h.event.Taken? && h.event.to == t then Some(Mail(h.event.from, h.event.msg))
    else LastMail(h.past, t)
  }

  /** The last reply task `t` got. */
  function LastReply(h: History, t: nat): Option<seq<Byte>> {
    if h.Boot? then None
    else if h.event.Answered? && h.event.who == t then Some(h.event.rep)
    else LastReply(h.past, t)
  }

  predicate Legal(h: History) {
    h.Boot? || (Legal(h.past) && Allowed(h.past, h.event))
  }

  datatype Mail = Mail(from: nat, msg: seq<Byte>)

  /** All messages accepted for `r`, oldest first. */
  function AcceptedFor(h: History, r: nat): seq<Mail> {
    if h.Boot? then []
    else AcceptedFor(h.past, r) +
         if h.event.Accepted? && h.event.to == r then [Mail(h.event.from, h.event.msg)] else []
  }

  /** All messages `r` took from its queue, delivered or thrown away, oldest first. */
  function TakenBy(h: History, r: nat): seq<Mail> {
    if h.Boot? then []
    else TakenBy(h.past, r) +
         if (h.event.Taken? || h.event.Dropped?) && h.event.to == r
         then [Mail(h.event.from, h.event.msg)] else []
  }

  /** The messages of the tasks in a send queue. */
  function Pending(tds: seq<Task>, q: seq<nat>): (r: seq<Mail>)
    requires forall i: nat :: i < |q| ==> q[i] < |tds|
    ensures |r| == |q|
    ensures forall i: nat :: i < |q| ==> r[i] == Mail(q[i], tds[q[i]].outbox)
  {
    if q == [] then [] else [Mail(q[0], tds[q[0]].outbox)] + Pending(tds, q[1..])
  }

  // ----- The kernel agrees with the history -----

  /** Task `t`'s descriptor and place say the same as the history. */
  ghost predicate Talks(s: Kernel, t: nat)
    requires Created(s, t)
  {
    var td, st := s.tds[t], StageOf(s.log, t);
    match td.state
    case Ready => st == Idle && td.slot == ResultOf(s.log, t)
    case SendBlocked => st == InCall(Receive(td.msgLen))
    case ReplyBlocked => st == Held(td.repLen)
    case ReceiveBlocked =>
      if t in s.stranded then st == Lost
      else st.Queued? && Has(s.sendq, st.to, t) && st.msg == td.outbox && st.repLen == td.repLen
           && td.msgLen == |td.outbox|
    case EventBlocked =>
      st.InCall? && st.call.AwaitEvent? && 0 <= st.call.event < MAX_EVENTS && Has(s.waiting, st.call.event, t)
    case Exited => st == InCall(Exit)
    case Active => false
  }

  ghost predicate AllTalk(s: Kernel, busy: set<nat>) {
    && Shape(s) && Legal(s.log)
    && (forall t: nat :: t < s.nextFree && t !in busy ==> Talks(s, t))
    && Untouched(s.log, s.nextFree)
  }

  /** Every message accepted for `r` was taken, in order, or is still in its queue `q`. */
  ghost predicate Balanced(h: History, tds: seq<Task>, q: seq<nat>, r: nat) {
    && (forall i: nat :: i < |q| ==> q[i] < |tds|)
    && AcceptedFor(h, r) == TakenBy(h, r) + Pending(tds, q)
  }

  ghost predicate Fifo(s: Kernel) {
    && Shape(s)
    && forall r: nat :: r < MAX_TASKS ==> Balanced(s.log, s.tds, s.sendq[r], r)
  }

  // ----- One event, one receiver -----

  /** Neither the queue, its outboxes nor the messages of `r` change. */
  lemma BalancedSame(h: History, h': History, tds: seq<Task>, tds': seq<Task>, q: seq<nat>, r: nat)
    requires Balanced(h, tds, q, r)
    requires AcceptedFor(h', r) == AcceptedFor(h, r) && TakenBy(h', r) == TakenBy(h, r)
    requires forall i: nat :: i < |q| ==> q[i] < |tds'| && tds'[q[i]].outbox == tds[q[i]].outbox
    ensures Balanced(h', tds', q, r)
  {
    assert Pending(tds', q) == Pending(tds, q);
  }

  /** Accepted and taken in one go, past an empty queue. */
  lemma BalancedDirect(h: History, tds: seq<Task>, tds': seq<Task>, t: nat, r: nat, msg: seq<Byte>)
    requires Balanced(h, tds, [], r)
    ensures Balanced(Then(Then(h, Accepted(t, r, msg)), Taken(t, r, msg)), tds', [], r)
  {
  }

  lemma {:induction false} PendingJoin(tds: seq<Task>, q: seq<nat>, t: nat)
    requires t < |tds| && forall i: nat :: i < |q| ==> q[i] < |tds|
    ensures Pending(tds, q + [t]) == Pending(tds, q) + [Mail(t, tds[t].outbox)]
  {
    if q != [] {
      assert (q + [t])[1..] == q[1..] + [t];
      PendingJoin(tds, q[1..], t);
    }
  }

  lemma BalancedJoin(h: History, tds: seq<Task>, q: seq<nat>, t: nat, r: nat, msg: seq<Byte>)
    requires Balanced(h, tds, q, r) && t < |tds| && tds[t].outbox == msg
    ensures Balanced(Then(h, Accepted(t, r, msg)), tds, q + [t], r)
  {
    PendingJoin(tds, q, t);
  }

  lemma BalancedLeave(h: History, tds: seq<Task>, q: seq<nat>, r: nat, e: Event)
    requires Balanced(h, tds, q, r) && q != []
    requires e == Taken(q[0], r, tds[q[0]].outbox) || e == Dropped(q[0], r, tds[q[0]].outbox)
    ensures Balanced(Then(h, e), tds, q[1..], r)
  {
    assert Pending(tds, q) == [Mail(e.from, e.msg)] + Pending(tds, q[1..]);
  }

  // ----- One event, one task it does not concern -----

  predicate Concerns(e: Event, t: nat) {
    match e
    case Called(w, _) => w == t
    case Accepted(f, _, _) => f == t
    case Taken(f, to, _) => f == t || to == t
    case Dropped(f, _, _) => f == t
    case Answered(w, _, _) => w == t
    case Woken(w, _, _) => w == t
    case Returned(w, _) => w == t
  }

  lemma NotConcerned(h: History, e: Event, t: nat)
    requires !Concerns(e, t)
    ensures StageOf(Then(h, e), t) == StageOf(h, t) && ResultOf(Then(h, e), t) == ResultOf(h, t)
  {
  }

  ghost predicate Untouched(h: History, n: nat) {
    forall t: nat :: n <= t ==> StageOf(h, t) == Idle && ResultOf(h, t) == 0
  }

  lemma StillUntouched(h: History, e: Event, n: nat)
    requires Untouched(h, n) && forall t: nat :: Concerns(e, t) ==> t < n
    ensures Untouched(Then(h, e), n)
  {
    forall t: nat | n <= t
      ensures StageOf(Then(h, e), t) == Idle && ResultOf(Then(h, e), t) == 0
    {
      assert !Concerns(e, t);
    }
  }

  /** Nothing about `t` changed, neither in its descriptor and queues nor in the history. */
  lemma StillTalks(s: Kernel, s': Kernel, t: nat)
    requires Created(s, t) && Created(s', t) && Talks(s, t) && s'.tds[t] == s.tds[t]
    requires StageOf(s'.log, t) == StageOf(s.log, t) && ResultOf(s'.log, t) == ResultOf(s.log, t)
    requires t in s'.stranded <==> t in s.stranded
    requires forall r: nat :: Has(s.sendq, r, t) ==> Has(s'.sendq, r, t)
    requires forall e: nat :: Has(s.waiting, e, t) ==> Has(s'.waiting, e, t)
    ensures Talks(s', t)
  {
  }
}
