/** Whole runs of the kernel: every sequence of scheduling decisions, system calls and
    interrupts from boot, and what holds in every state such a run can reach. */
module KernelRuns {

  import opened Bytes
  import opened Options
  import opened Tables
  import opened KernelTypes
  import opened KernelSpec
  import opened KernelPlacement
  import opened KernelHistory
  import opened HistoryTheorems
  import opened KernelInvariant
  import opened KernelRecords
  import opened KernelSteps

  /** One turn of the main loop's two halves: pick a task, or handle what it (or the
      hardware) asked for. */
  ghost predicate Step(s: Kernel, s': Kernel) {
    && Sound(s) && !s.halted
    && if s.running.None? then s' == Dispatch(s)
       else exists req: Request :: Enabled(s, req) && s' == Handle(s, req)
  }

  ghost predicate Booted(s: Kernel) {
    exists memory: seq<Task> :: |memory| == MAX_TASKS && s == Init(memory)
  }

  ghost predicate StepAt(run: seq<Kernel>, i: nat)
    requires i + 1 < |run|
  {
    Step(run[i], run[i + 1])
  }

  ghost predicate Run(run: seq<Kernel>) {
    && |run| > 0
    && Booted(run[0])
    && forall i: nat :: i + 1 < |run| ==> StepAt(run, i)
  }

  lemma ReadyAtBoot(none: Table, v: Table)
    requires none == Empties(64) && v == Push(Push(none, 1, 0), 28, 1)
    ensures Distinct(v) && forall k: nat, t: nat :: Has(v, k, t) <==> (k == 1 && t == 0) || (k == 28 && t == 1)
  {
    forall t: nat
      ensures Count(none, t) == 0
    {
      EmptiesCount(64, t);
    }
    var one := Push(none, 1, 0);
    PushDistinct(none, 1, 0);
    CountPush(none, 1, 0, 1);
    PushDistinct(one, 28, 1);
    PushHas(none, 1, 0);
    PushHas(one, 28, 1);
  }

  lemma InitPlaced(memory: seq<Task>)
    requires |memory| == MAX_TASKS
    ensures Placed(Init(memory), {} + {})
  {
    var s := Init(memory);
    ReadyAtBoot(Empties(64), s.ready);
    forall t: nat
      ensures Count(s.sendq, t) == 0 && Count(s.waiting, t) == 0
    {
      EmptiesCount(64, t);
      EmptiesCount(16, t);
    }
    assert Has(s.ready, 1, 0) && Has(s.ready, 28, 1);
  }

  lemma InitInv(memory: seq<Task>)
    requires |memory| == MAX_TASKS
    ensures Inv(Init(memory))
  {
    InitPlaced(memory);
  }

  lemma DispatchPlaced(s: Kernel)
    requires Placed(s, s.stranded + {})
    ensures var p, s' := Lowest(s.ready), Dispatch(s);
      if p < PRIORITIES then
        var t := s.ready[p][0];
        Placed(s', s.stranded + {t}) && t !in s.stranded && s.tds[t].state == Ready && t < s.nextFree
      else Placed(s', s.stranded + {})
  {
    var p := Lowest(s.ready);
    var s' := Dispatch(s);
    if p < PRIORITIES {
      var t := s.ready[p][0];
      assert Has(s.ready, p, t);
      PopReadyPlaced(s, s.stranded + {}, p);
      assert s.stranded + {} + {t} == s.stranded + {t};
      SamePlacesPlaced(s.(ready := Pop(s.ready, p)), s', s.stranded + {t});
    } else {
      SamePlacesPlaced(s, s', s.stranded + {});
    }
  }

  lemma DispatchTalk(s: Kernel)
    requires AllTalk(s, {})
    ensures AllTalk(Dispatch(s), {})
  {
    var s' := Dispatch(s);
    forall x: nat | x < s'.nextFree
      ensures Talks(s', x)
    {
      StillTalks(s, s', x);
    }
  }

  lemma DispatchKeepsInv(s: Kernel)
    requires Inv(s) && s.running.None?
    ensures Inv(Dispatch(s))
  {
    DispatchPlaced(s);
    FifoSame(s, Dispatch(s));
    DispatchTalk(s);
  }

  lemma StepKeepsInv(s: Kernel, s': Kernel)
    requires Inv(s) && Records(s) && Step(s, s')
    ensures Inv(s') && Records(s') && Sound(s')
  {
    if s.running.None? {
      DispatchKeepsInv(s);
      RecordsSame(s, s');
    } else {
      var req :| Enabled(s, req) && s' == Handle(s, req);
      HandleKeepsInv(s, req);
    }
    GoodSound(s');
  }

  lemma BootInv(s: Kernel)
    requires Booted(s)
    ensures Inv(s) && Records(s) && Sound(s)
  {
    var memory :| |memory| == MAX_TASKS && s == Init(memory);
    InitInv(memory);
    InitRecords(memory);
    GoodSound(s);
  }

  ghost predicate Keeps(run: seq<Kernel>, p: Kernel -> bool, i: nat)
    requires i + 1 < |run|
  {
    p(run[i]) ==> p(run[i + 1])
  }

  /** Induction over a run. */
  lemma {:induction false} Always(run: seq<Kernel>, p: Kernel -> bool, i: nat)
    requires i < |run| && p(run[0]) && forall j: nat :: j + 1 < |run| ==> Keeps(run, p, j)
    ensures p(run[i])
  {
    if i > 0 {
      Always(run, p, i - 1);
      assert Keeps(run, p, i - 1);
    }
  }

  /** The invariant holds in every state of every run. */
  lemma RunInv(run: seq<Kernel>, i: nat)
    requires Run(run) && i < |run|
    ensures Inv(run[i]) && Records(run[i]) && Sound(run[i])
  {
    ghost var p := (s: Kernel) => Inv(s) && Records(s) && Sound(s);
    forall j: nat | j + 1 < |run|
      ensures Keeps(run, p, j)
    {
      if p(run[j]) {
        assert StepAt(run, j);
        StepKeepsInv(run[j], run[j + 1]);
      }
    }
    BootInv(run[0]);
    Always(run, p, i);
  }

  ghost predicate EndsIn(run: seq<Kernel>, s: Kernel) {
    Run(run) && run[|run| - 1] == s
  }

  /** The states that some run ends in. */
  ghost predicate Reachable(s: Kernel) {
    exists run: seq<Kernel> :: EndsIn(run, s)
  }

  lemma RunGoesOn(run: seq<Kernel>, s: Kernel)
    requires Run(run) && Step(run[|run| - 1], s)
    ensures Run(run + [s])
  {
    var run' := run + [s];
    forall i: nat | i + 1 < |run'|
      ensures StepAt(run', i)
    {
      if i + 1 < |run| { assert StepAt(run, i); }
    }
  }

  lemma ReachableNext(s: Kernel, s': Kernel)
    requires Reachable(s) && Step(s, s')
    ensures Reachable(s')
  {
    var run :| EndsIn(run, s);
    RunGoesOn(run, s');
    assert EndsIn(run + [s'], s');
  }

  lemma BootReachable(memory: seq<Task>)
    requires |memory| == MAX_TASKS
    ensures Reachable(Init(memory))
  {
    assert EndsIn([Init(memory)], Init(memory));
  }

  lemma RunSound(run: seq<Kernel>, i: nat)
    requires Run(run) && i < |run|
    ensures Sound(run[i])
  {
    RunInv(run, i);
  }

  lemma EndSound(run: seq<Kernel>, s: Kernel)
    requires EndsIn(run, s)
    ensures Sound(s)
  {
    RunSound(run, |run| - 1);
  }

  lemma ReachableSound(s: Kernel)
    requires Reachable(s)
    ensures Sound(s)
  {
    var run :| EndsIn(run, s);
    EndSound(run, s);
  }

  // ----- The main loop -----

  /** A task can be picked and make this request, or nothing can be picked. */
  ghost predicate CanTurn(s: Kernel, req: Request) {
    Sound(s) && (Dispatch(s).running.Some? ==> Sound(Dispatch(s)) && Enabled(Dispatch(s), req))
  }

  ghost function Turned(s: Kernel, req: Request): Kernel
    requires CanTurn(s, req)
  {
    if Dispatch(s).running.None? then Dispatch(s) else Handle(Dispatch(s), req)
  }

  /** Turn `i` of the main loop takes it from `ss[i]` to `ss[i + 1]`: a task is picked, and
      request `reqs[i]` is what it comes back with; or nothing can be picked. */
  ghost predicate TurnAt(ss: seq<Kernel>, reqs: seq<Request>, i: nat)
    requires i + 1 < |ss| <= |reqs| + 1
  {
    var s := ss[i];
    && !s.halted && s.running.None? && CanTurn(s, reqs[i])
    && ss[i + 1] == if Dispatch(s).running.None? then Dispatch(s) else Handle(Dispatch(s), reqs[i])
  }

  /** The states between the first turns of the loop. */
  ghost predicate Turns(ss: seq<Kernel>, reqs: seq<Request>) {
    0 < |ss| <= |reqs| + 1 && forall i: nat :: i + 1 < |ss| ==> TurnAt(ss, reqs, i)
  }

  /** All turns of the loop: one for every request, unless it stops before. */
  ghost predicate AllTurns(ss: seq<Kernel>, reqs: seq<Request>) {
    Turns(ss, reqs) && (|ss| == |reqs| + 1 || ss[|ss| - 1].halted)
  }

  /** The next request is one the picked task can make. */
  ghost predicate NextEnabled(ss: seq<Kernel>, reqs: seq<Request>)
    requires 0 < |ss| <= |reqs|
  {
    var s := ss[|ss| - 1];
    Sound(s) && Dispatch(s).running.Some? ==> Enabled(Dispatch(s), reqs[|ss| - 1])
  }

  /** Whenever the loop gets to a request, the picked task can make it. */
  ghost predicate Fed(s: Kernel, reqs: seq<Request>) {
    forall ss: seq<Kernel> :: Turns(ss, reqs) && ss[0] == s && |ss| <= |reqs| ==> NextEnabled(ss, reqs)
  }

  lemma OneTurnMore(ss: seq<Kernel>, reqs: seq<Request>, s: Kernel)
    requires Turns(ss, reqs) && |ss| <= |reqs| && TurnAt(ss + [s], reqs, |ss| - 1)
    ensures Turns(ss + [s], reqs)
  {
    var ss' := ss + [s];
    forall i: nat | i + 1 < |ss'|
      ensures TurnAt(ss', reqs, i)
    {
      if i + 1 < |ss| { assert TurnAt(ss, reqs, i); }
    }
  }

  /** Both halves of one turn are steps of a run. */
  lemma TurnReachable(ss: seq<Kernel>, reqs: seq<Request>, i: nat)
    requires i + 1 < |ss| <= |reqs| + 1 && TurnAt(ss, reqs, i) && Reachable(ss[i])
    ensures Reachable(ss[i + 1])
  {
    var d := Dispatch(ss[i]);
    ReachableNext(ss[i], d);
    if d.running.Some? { ReachableNext(d, ss[i + 1]); }
  }

  /** The loop only goes through states of a run, so what holds in every run holds of it. */
  lemma TurnsReachable(ss: seq<Kernel>, reqs: seq<Request>, i: nat)
    requires Turns(ss, reqs) && Reachable(ss[0]) && i < |ss|
    ensures Reachable(ss[i])
  {
    ghost var p := (s: Kernel) => Reachable(s);
    forall j: nat | j + 1 < |ss|
      ensures Keeps(ss, p, j)
    {
      if p(ss[j]) {
        assert TurnAt(ss, reqs, j);
        TurnReachable(ss, reqs, j);
      }
    }
    Always(ss, p, i);
  }

  // ----- Every task is in exactly one place -----

  /** How many places hold task `t`: the processor, the three families of queues, no
      queue at all because of its state, or no queue because of an error branch. */
  function Places(s: Kernel, t: nat): nat
    requires Created(s, t)
  {
    (if s.running == Some(t) then 1 else 0)
    + Count(s.ready, t) + Count(s.sendq, t) + Count(s.waiting, t)
    + (if Parked(s.tds[t].state) then 1 else 0)
    + (if t in s.stranded then 1 else 0)
  }

  lemma HeldPlaces(s: Kernel, hand: set<nat>, t: nat)
    requires Placed(s, s.stranded + hand) && Calm(s) && Created(s, t) && hand !! s.stranded
    ensures Count(s.ready, t) + Count(s.sendq, t) + Count(s.waiting, t)
          + (if Parked(s.tds[t].state) && t !in hand then 1 else 0)
          + (if t in s.stranded then 1 else 0)
         == (if t in hand then 0 else 1)
  {
    CountHas(s.ready, t);
    CountHas(s.sendq, t);
    CountHas(s.waiting, t);
    assert Count(s.ready, t) <= 1 && Count(s.sendq, t) <= 1 && Count(s.waiting, t) <= 1;
    if t !in s.stranded + hand { assert PutDown(s, t); }
  }

  /** The queue (or lack of one) that the state of task `t` stands for. */
  ghost predicate WhereStateSays(s: Kernel, t: nat)
    requires Created(s, t)
  {
    match s.tds[t].state
    case Ready => s.running == Some(t) || t in s.stranded || Has(s.ready, s.tds[t].priority, t)
    case ReceiveBlocked => t in s.stranded || exists r: nat :: Has(s.sendq, r, t)
    case EventBlocked => exists e: nat :: Has(s.waiting, e, t)
    case Active => false
    case _ => t !in s.stranded && s.running != Some(t)
  }

  lemma StatePlace(s: Kernel, t: nat)
    requires Inv(s) && Created(s, t)
    ensures WhereStateSays(s, t)
  {
    var hand := if s.running.Some? then {s.running.value} else {};
    assert Placed(s, s.stranded + hand);
    if t !in s.stranded + hand { assert PutDown(s, t); }
    assert t !in hand ==> Talks(s, t);
  }

  /** In every state of every run, each created task is in exactly one place, and the
      place is the one its state says. */
  lemma ExactlyOnePlace(run: seq<Kernel>, i: nat, t: nat)
    requires Run(run) && i < |run| && Shape(run[i]) && t < run[i].nextFree
    ensures Places(run[i], t) == 1 && WhereStateSays(run[i], t)
  {
    RunInv(run, i);
    var s := run[i];
    StatePlace(s, t);
    HeldPlaces(s, if s.running.Some? then {s.running.value} else {}, t);
  }

  // ----- Messages -----

  /** For every receiver, the messages accepted for it are, in order, the ones it took
      followed by the ones waiting in its send queue; and while it waits in Receive its
      queue is empty, so that a direct hand-over overtakes nobody. */
  lemma FifoMessages(run: seq<Kernel>, i: nat, r: nat)
    requires Run(run) && i < |run| && r < MAX_TASKS
    ensures var s := run[i];
      && Sound(s)
      && AcceptedFor(s.log, r) == TakenBy(s.log, r) + Pending(s.tds, s.sendq[r])
      && (r < s.nextFree && s.tds[r].state == SendBlocked ==> s.sendq[r] == [])
  {
    RunInv(run, i);
    assert Balanced(run[i].log, run[i].tds, run[i].sendq[r], r);
  }

  /** A sender whose message was accepted is ready or running again only after its
      receiver took the message and somebody replied, in this order. */
  lemma Rendezvous(run: seq<Kernel>, i: nat, n: nat, t: nat, r: nat, msg: seq<Byte>)
    requires Run(run) && i < |run| && Shape(run[i]) && t < run[i].nextFree
    requires n < Length(run[i].log) && At(run[i].log, n) == Accepted(t, r, msg)
    requires run[i].tds[t].state == Ready
    ensures AnsweredAfter(run[i].log, n, t, r, msg)
  {
    RunInv(run, i);
    assert Talks(run[i], t);
    AcceptedThenAnswered(run[i].log, n, t, r, msg);
  }

  /** A task that is activated finds in its slot the result of its own last call: 0 for a
      Send that was answered with the size it asked for, the sender's tid for a Receive,
      the event's value for an AwaitEvent, and otherwise the value that call had to return
      at once. The buffers it gave to the call hold the message or the reply. Before its
      first call it finds 0. */
  lemma ActivatedWithOwnResult(run: seq<Kernel>, i: nat, t: nat)
    requires Run(run) && i < |run| && run[i].running == Some(t)
    ensures Created(run[i], t)
    ensures var s := run[i];
      var c, e := LastCall(s.log, t), LastEnd(s.log, t);
      if c < 0 then s.tds[t].slot == 0
      else
        && c < e && At(s.log, c).Called? && Fits(Prefix(s.log, e), At(s.log, c).call, At(s.log, e), t)
        && Ends(At(s.log, e), t) == Some(s.tds[t].slot)
        && (At(s.log, e).Taken? ==> s.tds[t].from == At(s.log, e).from && s.tds[t].inbox == At(s.log, e).msg)
        && (At(s.log, e).Answered? ==> s.tds[t].reply == At(s.log, e).rep)
  {
    RunInv(run, i);
    var s := run[i];
    assert RecordOk(s, t);
    CallMatchesAlways(s.log, t);
    ResultIsLastEnd(s.log, t);
    BuffersOfLastEnd(s.log, t);
  }

  /** While a message of `t` is held by a server, `t` cannot have another one accepted:
      two accepted sends of one task always have a reply between them. */
  lemma OneDelayPerTask(run: seq<Kernel>, i: nat, m: nat, n: nat)
    requires Run(run) && i < |run| && m < n < Length(run[i].log)
    requires At(run[i].log, m).Accepted? && At(run[i].log, n).Accepted?
    requires At(run[i].log, m).from == At(run[i].log, n).from
    ensures exists k: nat :: m < k < n && At(run[i].log, k).Answered? && At(run[i].log, k).who == At(run[i].log, m).from
  {
    RunInv(run, i);
    OneOutstandingSend(run[i].log, m, n);
  }

  // ----- Scheduling -----

  /** The task taken from the ready queues has the smallest priority number of all ready
      tasks, and is the oldest of its queue. */
  lemma DispatchPicks(run: seq<Kernel>, i: nat, k: nat, x: nat)
    requires Run(run) && i < |run| && run[i].running.None? && Shape(run[i])
    requires Has(run[i].ready, k, x)
    ensures var s := run[i];
      && Dispatch(s).running.Some?
      && var t := Dispatch(s).running.value;
         && Created(s, t) && Created(s, x) && s.tds[t].priority <= s.tds[x].priority
         && s.ready[s.tds[t].priority] == [t] + Dispatch(s).ready[s.tds[t].priority]
  {
    RunInv(run, i);
    var s := run[i];
    var p := Lowest(s.ready);
    assert Has(s.ready, p, s.ready[p][0]);
    assert s.ready[p] == [s.ready[p][0]] + s.ready[p][1..];
  }

  // ----- Tasks the kernel loses -----

  /** The task that a request leaves in no queue: the caller of a Create that fails, or
      the oldest sender when Receive asks for another size. */
  function LeftBehind(s: Kernel, req: Request): set<nat>
    requires Sound(s) && s.running.Some?
  {
    var t := s.running.value;
    match req
    case Syscall(Create(p)) => if p < 0 || p > 63 || s.nextFree >= MAX_TASKS then {t} else {}
    case Syscall(Receive(len)) =>
      if s.sendq[t] != [] && s.tds[s.sendq[t][0]].msgLen != len then {s.sendq[t][0]} else {}
    case _ => {}
  }

  lemma {:induction false} WakeAllStranded(s: Kernel, e: nat, v: int)
    requires Shape(s) && e < MAX_EVENTS && WaitersCreated(s, e)
    ensures WakeAll(s, e, v).stranded == s.stranded
    decreases |s.waiting[e]|
  {
    if s.waiting[e] != [] { WakeAllStranded(Wake(s, e, v), e, v); }
  }

  lemma PerformStranded(s: Kernel, t: nat, call: Call)
    requires Created(s, t) && (s.sendq[t] != [] ==> Created(s, s.sendq[t][0]))
    requires call.Send? ==> Addressable(s, call.to)
    requires call.Reply? ==> Addressable(s, call.target)
    requires !call.Exit? && !call.Quit?
    ensures Perform(s, t, call).0.stranded == s.stranded +
      match call
      case Create(p) => if p < 0 || p > 63 || s.nextFree >= MAX_TASKS then {t} else {}
      case Receive(len) =>
        if s.sendq[t] != [] && s.tds[s.sendq[t][0]].msgLen != len then {s.sendq[t][0]} else {}
      case _ => {}
  {
  }

  /** Tasks get stranded only by a failed Create and a Receive of the wrong size. */
  lemma StrandedOnlyByErrors(s: Kernel, req: Request)
    requires Sound(s) && s.running.Some? && Enabled(s, req)
    ensures Handle(s, req).stranded == s.stranded + LeftBehind(s, req)
  {
    match req
    case Interrupt(e, v) => WakeAllStranded(s.(running := None), e, v);
    case Syscall(call) =>
      var s0 := Note(s.(running := None), Called(s.running.value, call));
      if !call.Exit? && !call.Quit? { PerformStranded(s0, s.running.value, call); }
  }
}
