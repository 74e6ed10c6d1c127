/** What the delivery of an event does to await queues, ready queues and descriptors, in
    closed form: all waiters of one event become ready, in the order they waited. */
module EventDelivery {

  import opened Tables
  import opened KernelTypes

  /** The tasks of `q` with priority `p`, in the order of `q`. */
  function AtPriority(q: seq<nat>, tds: seq<Task>, p: nat): seq<nat>
    requires forall i: nat :: i < |q| ==> q[i] < |tds|
  {
    if q == [] then []
    else (if tds[q[0]].priority == p then [q[0]] else []) + AtPriority(q[1..], tds, p)
  }

  lemma {:induction false} AtPrioritySame(q: seq<nat>, tds: seq<Task>, tds': seq<Task>, p: nat)
    requires |tds'| == |tds| && forall i: nat :: i < |q| ==> q[i] < |tds|
    requires forall x: nat :: x < |tds| ==> tds'[x].priority == tds[x].priority
    ensures AtPriority(q, tds', p) == AtPriority(q, tds, p)
  {
    if q != [] { AtPrioritySame(q[1..], tds, tds', p); }
  }

  /** A descriptor once its task was woken with value `v`. */
  function Awake(td: Task, v: int): Task {
    td.(state := Ready, slot := v)
  }

  /** The await queues, the ready queues and the descriptors at one moment. */
  datatype Waiters = Waiters(waiting: Table, ready: Table, tds: seq<Task>)

  /** The waiters of event `e` are tasks with a priority. */
  ghost predicate Bounded(s: Waiters, e: nat) {
    && |s.waiting| == MAX_EVENTS && |s.ready| == PRIORITIES && |s.tds| == MAX_TASKS && e < MAX_EVENTS
    && forall i: nat :: i < |s.waiting[e]| ==>
         s.waiting[e][i] < MAX_TASKS && s.tds[s.waiting[e][i]].priority < PRIORITIES
  }

  /** Nobody waits twice, and nobody waits and is ready. */
  ghost predicate Orderly(s: Waiters) {
    forall x: nat :: Count(s.ready, x) + Count(s.waiting, x) <= 1
  }

  /** The front waiter of event `e` moved to its ready queue. */
  function FrontWoken(s: Waiters, e: nat, v: int): Waiters
    requires Bounded(s, e) && s.waiting[e] != []
  {
    var t := s.waiting[e][0];
    Waiters(Pop(s.waiting, e), Push(s.ready, s.tds[t].priority, t), s.tds[t := Awake(s.tds[t], v)])
  }

  /** All waiters of event `e` delivered, in closed form. */
  ghost predicate Delivered(s: Waiters, s': Waiters, e: nat, v: int)
    requires Bounded(s, e)
  {
    && s'.waiting == s.waiting[e := []] && |s'.ready| == PRIORITIES && |s'.tds| == MAX_TASKS
    && (forall p: nat :: p < PRIORITIES ==> s'.ready[p] == s.ready[p] + AtPriority(s.waiting[e], s.tds, p))
    && (forall x: nat :: x < MAX_TASKS ==>
          s'.tds[x] == if x in s.waiting[e] then Awake(s.tds[x], v) else s.tds[x])
  }

  lemma FrontWokenBounded(s: Waiters, e: nat, v: int)
    requires Bounded(s, e) && s.waiting[e] != []
    ensures Bounded(FrontWoken(s, e, v), e)
  {
    var s1 := FrontWoken(s, e, v);
    forall i: nat | i < |s1.waiting[e]|
      ensures s1.waiting[e][i] < MAX_TASKS && s1.tds[s1.waiting[e][i]].priority < PRIORITIES
    {
      assert s1.waiting[e][i] == s.waiting[e][i + 1];
    }
  }

  lemma FrontWokenOrderly(s: Waiters, e: nat, v: int)
    requires Bounded(s, e) && Orderly(s) && s.waiting[e] != []
    ensures Orderly(FrontWoken(s, e, v)) && Absent(s.ready, s.waiting[e][0])
  {
    var t := s.waiting[e][0];
    var s1 := FrontWoken(s, e, v);
    forall x: nat
      ensures Count(s1.ready, x) + Count(s1.waiting, x) <= 1
    {
      CountPop(s.waiting, e, x);
      CountPush(s.ready, s.tds[t].priority, t, x);
      assert Count(s.ready, x) + Count(s.waiting, x) <= 1;
    }
    assert Has(s.waiting, e, t);
    CountHas(s.waiting, t);
    assert Count(s.ready, t) + Count(s.waiting, t) <= 1;
  }

  /** Waking the front waiter first and then the rest is waking them all. */
  lemma FrontThenRest(s: Waiters, s': Waiters, e: nat, v: int)
    requires Bounded(s, e) && s.waiting[e] != [] && Bounded(FrontWoken(s, e, v), e)
    requires Delivered(FrontWoken(s, e, v), s', e, v)
    ensures Delivered(s, s', e, v)
  {
    var s1, q := FrontWoken(s, e, v), s.waiting[e];
    assert q == [q[0]] + q[1..];
    assert s1.waiting[e := []] == s.waiting[e := []];
    forall p: nat | p < PRIORITIES
      ensures s'.ready[p] == s.ready[p] + AtPriority(q, s.tds, p)
    {
      AtPrioritySame(q[1..], s.tds, s1.tds, p);
    }
  }

  lemma NobodyWaits(s: Waiters, e: nat, v: int)
    requires Bounded(s, e) && s.waiting[e] == []
    ensures Delivered(s, s, e, v)
  {
    assert s.waiting[e := []] == s.waiting;
  }

  /** There is only one way to deliver an event. */
  lemma DeliveredOnce(s: Waiters, a: Waiters, b: Waiters, e: nat, v: int)
    requires Bounded(s, e) && Delivered(s, a, e, v) && Delivered(s, b, e, v)
    ensures a == b
  {
    assert a.ready == b.ready;
    assert a.tds == b.tds;
  }
}
