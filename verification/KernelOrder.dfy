/** The order in which tasks become ready and get the processor, over whole runs, and what
    makes the main loop stop. */
module KernelOrder {

  import opened Bytes
  import opened Options
  import opened Tables
  import opened KernelTypes
  import opened KernelSpec
  import opened KernelInvariant
  import opened KernelRuns
  import opened EventDelivery
  import opened KernelDelivery

  /** The tasks that a call of `t` makes ready, in order. */
  function MadeReady(s: Kernel, t: nat, call: Call): (q: seq<nat>)
    requires Created(s, t)
    requires call.Send? ==> Addressable(s, call.to)
    requires call.Reply? ==> Addressable(s, call.target)
    ensures forall i: nat :: i < |q| ==> q[i] < MAX_TASKS
  {
    match call
    case Create(p) => if p < 0 || p > 63 || s.nextFree >= MAX_TASKS then [] else [s.nextFree, t]
    case Send(to, msg, _) =>
      if to >= s.nextFree then [t]
      else if s.tds[to].state != SendBlocked then []
      else if s.tds[to].msgLen == |msg| then [to] else [t]
    case Receive(_) => if s.sendq[t] == [] then [] else [t]
    case Reply(target, rep) => if target < s.nextFree && s.tds[target].repLen == |rep| then [target, t] else [t]
    case AwaitEvent(e) => if 0 <= e < MAX_EVENTS then [] else [t]
    case Exit => []
    case Quit => []
    case _ => [t]
  }

  /** The tasks that a request makes ready: an event's waiters come before the task that
      was interrupted, a new task and the target of a reply before the caller. */
  function Readied(s: Kernel, req: Request): (q: seq<nat>)
    requires Sound(s) && s.running.Some? && Enabled(s, req)
    ensures forall i: nat :: i < |q| ==> q[i] < MAX_TASKS
  {
    match req
    case Interrupt(e, _) => s.waiting[e] + [s.running.value]
    case Syscall(call) => MadeReady(s, s.running.value, call)
  }

  lemma {:induction false} AtPriorityJoin(q: seq<nat>, t: nat, tds: seq<Task>, p: nat)
    requires t < |tds| && forall i: nat :: i < |q| ==> q[i] < |tds|
    ensures AtPriority(q + [t], tds, p) == AtPriority(q, tds, p) + if tds[t].priority == p then [t] else []
  {
    var r, last := q + [t], if tds[t].priority == p then [t] else [];
    if q == [] {
      assert r == [t];
      AtPriorityOne(t, tds, p);
    } else {
      var head := if tds[q[0]].priority == p then [q[0]] else [];
      var rest := AtPriority(q[1..], tds, p);
      AtPriorityJoin(q[1..], t, tds, p);
      assert r[1..] == q[1..] + [t];
      assert AtPriority(r, tds, p) == head + (rest + last);
      assert head + (rest + last) == head + rest + last;
    }
  }

  lemma AtPriorityOne(t: nat, tds: seq<Task>, p: nat)
    requires t < |tds|
    ensures AtPriority([t], tds, p) == if tds[t].priority == p then [t] else []
  {
    assert [t][1..] == [];
  }

  /** `ready` grows to `ready'` by the tasks of `q`, each at its own priority. */
  ghost predicate Grows(ready: Table, ready': Table, q: seq<nat>, tds: seq<Task>, p: nat) {
    && |ready| == |ready'| == PRIORITIES && p < PRIORITIES && (forall i: nat :: i < |q| ==> q[i] < |tds|)
    && ready'[p] == ready[p] + AtPriority(q, tds, p)
  }

  lemma NobodyReady(ready: Table, tds: seq<Task>, p: nat)
    requires |ready| == PRIORITIES && p < PRIORITIES
    ensures Grows(ready, ready, [], tds, p)
  {
  }

  lemma OneReady(ready: Table, a: nat, k: nat, tds: seq<Task>, p: nat)
    requires |ready| == PRIORITIES && p < PRIORITIES && a < |tds| && tds[a].priority == k < PRIORITIES
    ensures Grows(ready, Push(ready, k, a), [a], tds, p)
  {
    AtPriorityOne(a, tds, p);
  }

  lemma TwoReady(ready: Table, a: nat, k: nat, b: nat, l: nat, tds: seq<Task>, p: nat)
    requires |ready| == PRIORITIES && p < PRIORITIES
    requires a < |tds| && tds[a].priority == k < PRIORITIES && b < |tds| && tds[b].priority == l < PRIORITIES
    ensures Grows(ready, Push(Push(ready, k, a), l, b), [a, b], tds, p)
  {
    var one := Push(ready, k, a);
    OneReady(ready, a, k, tds, p);
    assert Push(one, l, b)[p] == one[p] + if l == p then [b] else [];
    assert [a, b] == [a] + [b];
    AtPriorityJoin([a], b, tds, p);
  }

  lemma CreateReadies(s: Kernel, t: nat, priority: int, p: nat)
    requires Created(s, t) && p < PRIORITIES
    ensures var s' := KernelCreate(s, t, priority).0;
      Grows(s.ready, s'.ready, MadeReady(s, t, Create(priority)), s'.tds, p)
  {
    var s' := KernelCreate(s, t, priority).0;
    if priority < 0 || priority > 63 || s.nextFree >= MAX_TASKS {
      NobodyReady(s.ready, s'.tds, p);
    } else {
      TwoReady(s.ready, s.nextFree, priority, t, s.tds[t].priority, s'.tds, p);
    }
  }

  lemma SendReadies(s: Kernel, t: nat, call: Call, p: nat)
    requires Created(s, t) && call.Send? && Addressable(s, call.to) && p < PRIORITIES
    ensures var s' := KernelSend(s, t, call.to, call.msg, call.repLen).0;
      Grows(s.ready, s'.ready, MadeReady(s, t, call), s'.tds, p)
  {
    var s', to := KernelSend(s, t, call.to, call.msg, call.repLen).0, call.to;
    if to >= s.nextFree || (s.tds[to].state == SendBlocked && s.tds[to].msgLen != |call.msg|) {
      OneReady(s.ready, t, s.tds[t].priority, s'.tds, p);
    } else if s.tds[to].state == SendBlocked {
      OneReady(s.ready, to, s.tds[to].priority, s'.tds, p);
    } else {
      NobodyReady(s.ready, s'.tds, p);
    }
  }

  /** Neither the caller nor a task it can reply to is in a ready queue, and the caller
      waits for no event. It is so in every good state. */
  ghost predicate Loose(s: Kernel, t: nat) {
    && Created(s, t)
    && (forall e: nat :: !Has(s.waiting, e, t)) && (forall k: nat :: !Has(s.ready, k, t))
    && (forall k: nat, x: nat :: Has(s.ready, k, x) ==> x < s.nextFree && s.tds[x].state == Ready)
  }

  lemma ReplyReadies(s: Kernel, t: nat, target: nat, rep: seq<Byte>, p: nat)
    requires Loose(s, t) && s.tds[t].state == Ready && Enabled(s, Syscall(Reply(target, rep))) && p < PRIORITIES
    ensures var s' := KernelReply(s, t, target, rep).0;
      Grows(s.ready, s'.ready, MadeReady(s, t, Reply(target, rep)), s'.tds, p)
  {
    var s' := KernelReply(s, t, target, rep).0;
    if target < s.nextFree && s.tds[target].repLen == |rep| {
      var s1 := Answering(s, t, target, rep);
      assert !Has(s.ready, s.tds[target].priority, target) && !Has(s.ready, s.tds[t].priority, t);
      assert s1.ready == Push(s.ready, s.tds[target].priority, target);
      assert s'.ready == Push(s1.ready, s.tds[t].priority, t);
      TwoReady(s.ready, target, s.tds[target].priority, t, s.tds[t].priority, s'.tds, p);
    } else {
      OneReady(s.ready, t, s.tds[t].priority, s'.tds, p);
    }
  }

  lemma ReturnReadies(s: Kernel, t: nat, v: int, p: nat)
    requires Created(s, t) && p < PRIORITIES
    ensures Grows(s.ready, Return(s, t, v).0.ready, [t], Return(s, t, v).0.tds, p)
  {
    OneReady(s.ready, t, s.tds[t].priority, Return(s, t, v).0.tds, p);
  }

  lemma AwaitReadies(s: Kernel, t: nat, event: int, p: nat)
    requires Created(s, t) && p < PRIORITIES
    ensures var s' := KernelAwait(s, t, event).0;
      Grows(s.ready, s'.ready, MadeReady(s, t, AwaitEvent(event)), s'.tds, p)
  {
    if 0 <= event < MAX_EVENTS {
      NobodyReady(s.ready, KernelAwait(s, t, event).0.tds, p);
    } else {
      ReturnReadies(s, t, -1, p);
    }
  }

  lemma ReceiveReadies(s: Kernel, t: nat, len: nat, p: nat)
    requires Created(s, t) && (s.sendq[t] != [] ==> Created(s, s.sendq[t][0])) && p < PRIORITIES
    ensures var s' := KernelReceive(s, t, len).0;
      Grows(s.ready, s'.ready, MadeReady(s, t, Receive(len)), s'.tds, p)
  {
    var s' := KernelReceive(s, t, len).0;
    if s.sendq[t] == [] {
      NobodyReady(s.ready, s'.tds, p);
    } else {
      OneReady(s.ready, t, s.tds[t].priority, s'.tds, p);
    }
  }

  /** Writing slots and states does not change who is at which priority. */
  lemma GrowsSame(ready: Table, ready': Table, q: seq<nat>, tds: seq<Task>, tds': seq<Task>, p: nat)
    requires Grows(ready, ready', q, tds, p) && |tds'| == |tds|
    requires forall x: nat :: x < |tds| ==> tds'[x].priority == tds[x].priority
    ensures Grows(ready, ready', q, tds', p)
  {
    AtPrioritySame(q, tds, tds', p);
  }

  lemma PerformReadies(s: Kernel, t: nat, call: Call, p: nat)
    requires Loose(s, t) && s.tds[t].state == Ready && (s.sendq[t] != [] ==> Created(s, s.sendq[t][0])) && p < PRIORITIES
    requires Enabled(s, Syscall(call)) && !call.Exit? && !call.Quit?
    ensures Grows(s.ready, Perform(s, t, call).0.ready, MadeReady(s, t, call), Perform(s, t, call).0.tds, p)
  {
    match call
    case Create(priority) => CreateReadies(s, t, priority, p);
    case Send(_, _, _) => SendReadies(s, t, call, p);
    case Reply(target, rep) => ReplyReadies(s, t, target, rep, p);
    case AwaitEvent(e) => AwaitReadies(s, t, e, p);
    case Receive(len) => ReceiveReadies(s, t, len, p);
    case Pass => ReturnReadies(s, t, 0, p);
    case MyTid => ReturnReadies(s, t, s.tds[t].tid, p);
    case MyParentTid => ReturnReadies(s, t, KernelParentTid(s, t).1, p);
  }

  lemma FinishReadies(s: Kernel, t: nat, call: Call, p: nat)
    requires Loose(s, t) && s.tds[t].state == Ready && (s.sendq[t] != [] ==> Created(s, s.sendq[t][0])) && p < PRIORITIES
    requires Enabled(s, Syscall(call)) && !call.Exit? && !call.Quit?
    ensures var s' := Finish(Perform(s, t, call), t);
      Grows(s.ready, s'.ready, MadeReady(s, t, call), s'.tds, p)
  {
    PerformReadies(s, t, call, p);
    var (s1, v) := Perform(s, t, call);
    GrowsSame(s.ready, s1.ready, MadeReady(s, t, call), s1.tds, SetSlot(s1, t, v).tds, p);
  }

  lemma MadeReadySame(s: Kernel, t: nat, call: Call, e: Event)
    requires Created(s, t)
    requires call.Send? ==> Addressable(s, call.to)
    requires call.Reply? ==> Addressable(s, call.target)
    ensures MadeReady(Note(s, e), t, call) == MadeReady(s, t, call)
  {
  }

  lemma CallReadies(s: Kernel, t: nat, call: Call, p: nat)
    requires Loose(s, t) && s.tds[t].state == Ready && (s.sendq[t] != [] ==> Created(s, s.sendq[t][0])) && p < PRIORITIES
    requires Enabled(s, Syscall(call))
    ensures var s' := HandleCall(s, t, call);
      Grows(s.ready, s'.ready, MadeReady(s, t, call), s'.tds, p)
  {
    if call.Exit? || call.Quit? {
      NobodyReady(s.ready, HandleCall(s, t, call).tds, p);
    } else {
      MadeReadySame(s, t, call, Called(t, call));
      FinishReadies(Note(s, Called(t, call)), t, call, p);
    }
  }

  lemma InterruptReadies(s: Kernel, t: nat, e: nat, v: int, p: nat)
    requires Created(s, t) && Source(e) && WaitersCreated(s, e) && t !in s.waiting[e] && p < PRIORITIES
    ensures var s' := HandleInterrupt(s, t, e, v);
      Grows(s.ready, s'.ready, s.waiting[e] + [t], s'.tds, p)
  {
    var s' := HandleInterrupt(s, t, e, v);
    InterruptDelivers(s, t, e, v, p);
    AtPrioritySame(s.waiting[e], s.tds, s'.tds, p);
    assert forall i: nat :: i < |s.waiting[e] + [t]| ==> (s.waiting[e] + [t])[i] < MAX_TASKS;
    AtPriorityJoin(s.waiting[e], t, s'.tds, p);
  }

  /** A request only appends to the ready queues: the tasks it makes ready, each at its
      own priority and in that order. */
  lemma HandleReadies(s: Kernel, req: Request, p: nat)
    requires Sound(s) && s.running.Some? && Enabled(s, req) && p < PRIORITIES
    requires Loose(s, s.running.value) && s.tds[s.running.value].state == Ready
    ensures var s' := Handle(s, req);
      Grows(s.ready, s'.ready, Readied(s, req), s'.tds, p)
  {
    var s0 := s.(running := None);
    match req
    case Interrupt(e, v) =>
      assert !Has(s.waiting, e, s.running.value);
      InterruptReadies(s0, s.running.value, e, v, p);
    case Syscall(call) => CallReadies(s0, s.running.value, call, p);
  }

  // ----- Whole runs -----

  /** Step `i` of a run takes a task from ready queue `p`. */
  ghost predicate Picks(run: seq<Kernel>, i: nat, p: nat)
    requires i < |run|
  {
    run[i].running.None? && |run[i].ready| == PRIORITIES && Lowest(run[i].ready) == p
  }

  /** How many of the steps from `i` up to `j` take a task from ready queue `p`. */
  ghost function PickCount(run: seq<Kernel>, i: nat, j: nat, p: nat): (n: nat)
    requires i <= j <= |run|
  {
    if i == j then 0 else PickCount(run, i, j - 1, p) + if Picks(run, j - 1, p) then 1 else 0
  }

  lemma OthersKeepOrder(run: seq<Kernel>, i: nat, p: nat)
    requires Run(run) && i + 1 < |run| && p < PRIORITIES
    ensures Shape(run[i]) && Shape(run[i + 1])
    ensures Picks(run, i, p) ==> run[i].ready[p] != [] && run[i + 1].ready[p] == run[i].ready[p][1..]
                                 && run[i + 1].running == Some(run[i].ready[p][0])
    ensures !Picks(run, i, p) ==> run[i].ready[p] <= run[i + 1].ready[p]
  {
    var s := run[i];
    RunInv(run, i);
    RunInv(run, i + 1);
    assert StepAt(run, i);
    if s.running.Some? {
      var req :| Enabled(s, req) && run[i + 1] == Handle(s, req);
      RunningLoose(s);
      HandleReadies(s, req, p);
    }
  }

  /** What one step does to position `k` of ready queue `p`. */
  lemma MovesUp(run: seq<Kernel>, i: nat, p: nat, k: nat)
    requires Run(run) && i + 1 < |run| && p < PRIORITIES && Shape(run[i]) && k < |run[i].ready[p]|
    ensures Shape(run[i + 1])
    ensures var n := k - if Picks(run, i, p) then 1 else 0;
      0 <= n ==> n < |run[i + 1].ready[p]| && run[i + 1].ready[p][n] == run[i].ready[p][k]
  {
    OthersKeepOrder(run, i, p);
  }

  lemma RunningLoose(s: Kernel)
    requires Inv(s) && s.running.Some?
    ensures Loose(s, s.running.value)
  {
    assert s.running.value in s.stranded + {s.running.value};
  }

  /** Nobody overtakes within a priority: a task at position `k` of its ready queue moves
      up by one for every task taken from that queue, and by nothing else. */
  lemma {:induction false} KeepsItsTurn(run: seq<Kernel>, i: nat, j: nat, p: nat, k: nat)
    requires Run(run) && i <= j < |run| && p < PRIORITIES && Shape(run[i])
    requires k < |run[i].ready[p]| && PickCount(run, i, j, p) <= k
    ensures var n := k - PickCount(run, i, j, p);
      Shape(run[j]) && n < |run[j].ready[p]| && run[j].ready[p][n] == run[i].ready[p][k]
  {
    if i < j {
      KeepsItsTurn(run, i, j - 1, p, k);
      MovesUp(run, j - 1, p, k - PickCount(run, i, j - 1, p));
    }
  }

  /** It runs when, and only when, its turn has come: the `k`+1-st task taken from the
      queue is the one that was at position `k`. */
  lemma RunsInTurn(run: seq<Kernel>, i: nat, j: nat, p: nat, k: nat)
    requires Run(run) && i <= j && j + 1 < |run| && p < PRIORITIES && Shape(run[i])
    requires k < |run[i].ready[p]| && PickCount(run, i, j, p) == k && Picks(run, j, p)
    ensures run[j + 1].running == Some(run[i].ready[p][k])
  {
    KeepsItsTurn(run, i, j, p, k);
    OthersKeepOrder(run, j, p);
  }

  /** The loop stops for three reasons: nothing is ready to be picked, a task quits the
      kernel, or a task exits and leaves nothing ready. */
  lemma StopsIff(s: Kernel, req: Request)
    requires Sound(s) && !s.halted
    ensures Dispatch(s).halted <==> forall p: nat :: p < PRIORITIES ==> s.ready[p] == []
    ensures s.running.Some? && Enabled(s, req) ==>
      (Handle(s, req).halted <==>
         req == Syscall(Quit) || (req == Syscall(Exit) && forall p: nat :: p < PRIORITIES ==> s.ready[p] == []))
  {
    var p := Lowest(s.ready);
  }
}
