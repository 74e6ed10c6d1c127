/** Where every task is. The invariant is stated relative to a hand: the tasks that are
    in no queue at the moment because the kernel holds them. Every primitive move takes a
    task into the hand or puts it down somewhere. */
module KernelPlacement {

  import opened Tables
  import opened KernelTypes
  import opened KernelSpec

  /** States in which a task is in no queue at all. */
  predicate Parked(st: TaskState) {
    st == SendBlocked || st == ReplyBlocked || st == Exited
  }

  ghost predicate QueuesOk(s: Kernel, hand: set<nat>)
    requires Shape(s)
  {
    && Distinct(s.ready) && Distinct(s.sendq) && Distinct(s.waiting)
    && (forall k: nat, t: nat :: Has(s.ready, k, t) ==>
          t < s.nextFree && t !in hand && s.tds[t].state == Ready && s.tds[t].priority == k)
    && (forall r: nat, t: nat :: Has(s.sendq, r, t) ==>
          r < s.nextFree && t < s.nextFree && t !in hand && s.tds[t].state == ReceiveBlocked)
    && (forall e: nat, t: nat :: Has(s.waiting, e, t) ==>
          t < s.nextFree && t !in hand && s.tds[t].state == EventBlocked)
  }

  /** A task that the kernel does not hold is in the queue its state says. */
  ghost predicate PutDown(s: Kernel, t: nat)
    requires Created(s, t)
  {
    match s.tds[t].state
    case Ready => Has(s.ready, s.tds[t].priority, t)
    case ReceiveBlocked => exists r: nat :: Has(s.sendq, r, t)
    case EventBlocked => exists e: nat :: Has(s.waiting, e, t)
    case Active => false
    case _ => true
  }

  ghost predicate Placed(s: Kernel, hand: set<nat>) {
    && Shape(s)
    && QueuesOk(s, hand)
    && (forall t: nat :: t in hand ==> t < s.nextFree)
    && (forall t: nat :: t < s.nextFree && t !in hand ==> PutDown(s, t))
  }

  /** Two states that differ in nothing the placement depends on. */
  ghost predicate SamePlaces(s: Kernel, s': Kernel) {
    && Shape(s) && Shape(s')
    && s'.ready == s.ready && s'.sendq == s.sendq && s'.waiting == s.waiting && s'.nextFree == s.nextFree
    && forall t: nat :: t < s.nextFree ==>
         s'.tds[t].state == s.tds[t].state && s'.tds[t].priority == s.tds[t].priority
  }

  lemma SamePlacesPlaced(s: Kernel, s': Kernel, hand: set<nat>)
    requires Placed(s, hand) && SamePlaces(s, s')
    ensures Placed(s', hand)
  {
    forall t: nat | t < s'.nextFree && t !in hand
      ensures PutDown(s', t)
    {
      assert PutDown(s, t);
    }
  }

  /** Nobody in the hand is in any queue. */
  lemma HandAbsent(s: Kernel, hand: set<nat>, t: nat)
    requires Placed(s, hand) && t in hand
    ensures Absent(s.ready, t) && Absent(s.sendq, t) && Absent(s.waiting, t)
  {
    CountHas(s.ready, t);
    CountHas(s.sendq, t);
    CountHas(s.waiting, t);
  }

  /** A parked task can be taken into the hand without touching a queue. */
  lemma GrabPlaced(s: Kernel, hand: set<nat>, t: nat)
    requires Placed(s, hand) && t < s.nextFree && Parked(s.tds[t].state)
    ensures Placed(s, hand + {t})
  {
  }

  /** Changing the state of a task in the hand hides nothing and moves nobody. */
  lemma HeldStatePlaced(s: Kernel, s': Kernel, hand: set<nat>, t: nat)
    requires Placed(s, hand) && t in hand && Shape(s')
    requires s'.ready == s.ready && s'.sendq == s.sendq && s'.waiting == s.waiting && s'.nextFree == s.nextFree
    requires forall x: nat :: x < s.nextFree && x != t ==>
               s'.tds[x].state == s.tds[x].state && s'.tds[x].priority == s.tds[x].priority
    ensures Placed(s', hand)
    ensures Parked(s'.tds[t].state) ==> Placed(s', hand - {t})
  {
    forall x: nat | x < s'.nextFree && x != t && x !in hand
      ensures PutDown(s', x)
    {
      assert PutDown(s, x);
    }
    HandAbsent(s, hand, t);
  }

  lemma PutReadyPlaced(s: Kernel, s': Kernel, hand: set<nat>, t: nat)
    requires Placed(s, hand) && t in hand && Shape(s')
    requires s'.ready == Push(s.ready, s.tds[t].priority, t) && s'.sendq == s.sendq && s'.waiting == s.waiting
    requires s'.nextFree == s.nextFree && s'.tds[t].state == Ready && s'.tds[t].priority == s.tds[t].priority
    requires forall x: nat :: x < s.nextFree && x != t ==>
               s'.tds[x].state == s.tds[x].state && s'.tds[x].priority == s.tds[x].priority
    ensures Placed(s', hand - {t})
  {
    var p := s.tds[t].priority;
    HandAbsent(s, hand, t);
    PushHas(s.ready, p, t);
    PushDistinct(s.ready, p, t);
    forall x: nat | x < s'.nextFree && x !in hand - {t}
      ensures PutDown(s', x)
    {
      if x != t { assert PutDown(s, x); }
    }
  }

  lemma EnlistPlaced(s: Kernel, s': Kernel, hand: set<nat>, t: nat, to: nat)
    requires Placed(s, hand) && t in hand && to < s.nextFree && Shape(s')
    requires s'.ready == s.ready && s'.sendq == Push(s.sendq, to, t) && s'.waiting == s.waiting
    requires s'.nextFree == s.nextFree && s'.tds[t].state == ReceiveBlocked
    requires forall x: nat :: x < s.nextFree && x != t ==>
               s'.tds[x].state == s.tds[x].state && s'.tds[x].priority == s.tds[x].priority
    ensures Placed(s', hand - {t})
  {
    HandAbsent(s, hand, t);
    PushHas(s.sendq, to, t);
    PushDistinct(s.sendq, to, t);
    forall x: nat | x < s'.nextFree && x !in hand - {t}
      ensures PutDown(s', x)
    {
      if x == t {
        assert Has(s'.sendq, to, t);
      } else {
        assert PutDown(s, x);
        if s.tds[x].state == ReceiveBlocked {
          var r: nat :| Has(s.sendq, r, x);
          assert Has(s'.sendq, r, x);
        }
      }
    }
  }

  lemma AwaitPlaced(s: Kernel, s': Kernel, hand: set<nat>, t: nat, e: nat)
    requires Placed(s, hand) && t in hand && e < MAX_EVENTS && Shape(s')
    requires s'.ready == s.ready && s'.sendq == s.sendq && s'.waiting == Push(s.waiting, e, t)
    requires s'.nextFree == s.nextFree && s'.tds[t].state == EventBlocked
    requires forall x: nat :: x < s.nextFree && x != t ==>
               s'.tds[x].state == s.tds[x].state && s'.tds[x].priority == s.tds[x].priority
    ensures Placed(s', hand - {t})
  {
    HandAbsent(s, hand, t);
    PushHas(s.waiting, e, t);
    PushDistinct(s.waiting, e, t);
    forall x: nat | x < s'.nextFree && x !in hand - {t}
      ensures PutDown(s', x)
    {
      if x == t {
        assert Has(s'.waiting, e, t);
      } else {
        assert PutDown(s, x);
        if s.tds[x].state == EventBlocked {
          var k: nat :| Has(s.waiting, k, x);
          assert Has(s'.waiting, k, x);
        }
      }
    }
  }

  lemma PopReadyPlaced(s: Kernel, hand: set<nat>, p: nat)
    requires Placed(s, hand) && p < PRIORITIES && s.ready[p] != []
    ensures Placed(s.(ready := Pop(s.ready, p)), hand + {s.ready[p][0]}) && s.ready[p][0] !in hand
  {
    assert Has(s.ready, p, s.ready[p][0]);
    PopHas(s.ready, p);
    PopDistinct(s.ready, p);
    var s' := s.(ready := Pop(s.ready, p));
    forall x: nat | x < s'.nextFree && x !in hand + {s.ready[p][0]}
      ensures PutDown(s', x)
    {
      assert PutDown(s, x);
    }
  }

  lemma PopSendPlaced(s: Kernel, hand: set<nat>, r: nat)
    requires Placed(s, hand) && r < s.nextFree && s.sendq[r] != []
    ensures Placed(s.(sendq := Pop(s.sendq, r)), hand + {s.sendq[r][0]}) && s.sendq[r][0] !in hand
  {
    assert Has(s.sendq, r, s.sendq[r][0]);
    PopHas(s.sendq, r);
    PopDistinct(s.sendq, r);
    var s' := s.(sendq := Pop(s.sendq, r));
    forall x: nat | x < s'.nextFree && x !in hand + {s.sendq[r][0]}
      ensures PutDown(s', x)
    {
      assert PutDown(s, x);
      if s.tds[x].state == ReceiveBlocked {
        var k: nat :| Has(s.sendq, k, x);
        assert Has(s'.sendq, k, x);
      }
    }
  }

  lemma PopWaitingPlaced(s: Kernel, hand: set<nat>, e: nat)
    requires Placed(s, hand) && e < MAX_EVENTS && s.waiting[e] != []
    ensures Placed(s.(waiting := Pop(s.waiting, e)), hand + {s.waiting[e][0]}) && s.waiting[e][0] !in hand
  {
    assert Has(s.waiting, e, s.waiting[e][0]);
    PopHas(s.waiting, e);
    PopDistinct(s.waiting, e);
    var s' := s.(waiting := Pop(s.waiting, e));
    forall x: nat | x < s'.nextFree && x !in hand + {s.waiting[e][0]}
      ensures PutDown(s', x)
    {
      assert PutDown(s, x);
      if s.tds[x].state == EventBlocked {
        var k: nat :| Has(s.waiting, k, x);
        assert Has(s'.waiting, k, x);
      }
    }
  }

  lemma NewTaskPlaced(s: Kernel, hand: set<nat>, t: nat, priority: nat)
    requires Placed(s, hand) && s.nextFree < MAX_TASKS && priority < PRIORITIES
    ensures s.sendq[s.nextFree] == []
    ensures Placed(NewTask(s, t, priority), hand + {s.nextFree}) && s.nextFree !in hand
  {
    var n := s.nextFree;
    if s.sendq[n] != [] {
      assert Has(s.sendq, n, s.sendq[n][0]);
    }
    var s' := NewTask(s, t, priority);
    assert s'.sendq == s.sendq;
    forall x: nat | x < s'.nextFree && x !in hand + {n}
      ensures PutDown(s', x)
    {
      assert PutDown(s, x);
    }
  }
}
