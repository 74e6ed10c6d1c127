/** Event delivery in closed form, and what an accepted Reply does to a task that is not
    waiting for one. */
module KernelDelivery {

  import opened Bytes
  import opened Tables
  import opened KernelTypes
  import opened KernelSpec
  import opened KernelPlacement
  import opened KernelHistory
  import opened KernelInvariant
  import opened EventDelivery

  // ----- Events -----

  function Snapshot(s: Kernel): Waiters {
    Waiters(s.waiting, s.ready, s.tds)
  }

  /** Draining one await queue: only that queue changes, every waiter is appended to its
      ready queue in waiting order with the event's value in its slot, and no other
      descriptor changes. */
  lemma {:induction false} WakeAllDelivers(s: Kernel, e: nat, v: int)
    requires Shape(s) && e < MAX_EVENTS && WaitersCreated(s, e)
    ensures Bounded(Snapshot(s), e) && Delivered(Snapshot(s), Snapshot(WakeAll(s, e, v)), e, v)
    ensures WakeAll(s, e, v).sendq == s.sendq
    decreases |s.waiting[e]|
  {
    if s.waiting[e] == [] {
      NobodyWaits(Snapshot(s), e, v);
    } else {
      var s1 := Wake(s, e, v);
      assert Snapshot(s1) == FrontWoken(Snapshot(s), e, v);
      WakeAllDelivers(s1, e, v);
      FrontThenRest(Snapshot(s), Snapshot(WakeAll(s, e, v)), e, v);
    }
  }

  /** An interrupt: the waiters of its event become ready in waiting order, and the task
      that was interrupted goes behind all of them. */
  lemma InterruptDelivers(s: Kernel, t: nat, e: nat, v: int, p: nat)
    requires Created(s, t) && Source(e) && WaitersCreated(s, e) && t !in s.waiting[e] && p < PRIORITIES
    ensures var s' := HandleInterrupt(s, t, e, v);
      && s'.waiting == s.waiting[e := []] && s'.sendq == s.sendq
      && s'.ready[p] == s.ready[p] + AtPriority(s.waiting[e], s.tds, p)
                        + (if s.tds[t].priority == p then [t] else [])
      && (forall x: nat :: x < MAX_TASKS && x != t ==>
            s'.tds[x] == if x in s.waiting[e] then Awake(s.tds[x], v) else s.tds[x])
      && s'.tds[t] == s.tds[t].(state := Ready)
  {
    WakeAllDelivers(s, e, v);
  }

  // ----- Reply -----

  /** No task is in two queue places at once. */
  ghost predicate NobodyTwice(s: Kernel) {
    forall x: nat :: Count(s.ready, x) + Count(s.sendq, x) + Count(s.waiting, x) <= 1
  }

  /** Queue places of one task in a good state. */
  lemma QueuePlaces(s: Kernel, hand: set<nat>, x: nat)
    requires Placed(s, hand)
    ensures Count(s.ready, x) + Count(s.sendq, x) + Count(s.waiting, x) ==
            if x >= s.nextFree || x in hand || Parked(s.tds[x].state) then 0 else 1
  {
    CountHas(s.ready, x);
    CountHas(s.sendq, x);
    CountHas(s.waiting, x);
    assert Count(s.ready, x) <= 1 && Count(s.sendq, x) <= 1 && Count(s.waiting, x) <= 1;
    if x < s.nextFree && x !in hand { assert PutDown(s, x); }
  }

  /** Task `x` stands behind `target` in the ready queue of `target`. */
  ghost predicate Behind(ready: Table, p: nat, target: nat, x: nat) {
    p < |ready| && target in ready[p] && x in ready[p][|Through(ready[p], target)|..]
  }

  lemma LinkHas(v: Table, k: nat, t: nat, a: nat, x: nat)
    requires k < |v| && Distinct(v)
    ensures Has(Link(v, k, t), a, x) <==> (Has(v, a, x) && !(a == k && Behind(v, k, t, x))) || (a == k && x == t)
  {
    if a == k && t in v[k] {
      var q, r := v[k], Through(v[k], t);
      assert q == r + q[|r|..];
      if x in r && x in q[|r|..] {
        var i: nat :| i < |r| && r[i] == x;
        var j: nat :| j < |q[|r|..]| && q[|r|..][j] == x;
        DistinctAt(v, k, i, k, |r| + j);
      }
      assert r[|r| - 1] == t;
    }
  }

  /** The target of a Reply, in a ready queue or not. */
  lemma TargetPlace(s: Kernel, t: nat, target: nat)
    requires Placed(s, s.stranded + {t}) && target < s.nextFree
    ensures target in s.ready[s.tds[target].priority] || Absent(s.ready, target)
    ensures Absent(s.ready, t)
  {
    HandAbsent(s, s.stranded + {t}, t);
    CountHas(s.ready, target);
  }

  /** Two puts in a row, of `x` in queue `p` and of `t` in queue `q`, where `t` is in no
      queue before. */
  lemma TwoPuts(v: Table, p: nat, x: nat, q: nat, t: nat)
    requires p < |v| && q < |v| && Distinct(v) && Absent(v, t) && (x in v[p] || Absent(v, x)) && (x == t ==> p == q)
    ensures var w := Link(v, p, x);
      && Distinct(w) && (x != t ==> Absent(w, t)) && (t in w[q] <==> x == t)
      && Link(w, q, t) == (if x == t then w else Push(w, q, t)) && Distinct(Link(w, q, t))
  {
    var w := Link(v, p, x);
    LinkDistinct(v, p, x);
    AbsentHere(v, q, t);
    if x == t {
      LinkingLast(v[q], t);
      assert Link(w, q, t) == w;
    } else {
      NotLinked(v, p, x, t);
      AbsentHere(w, q, t);
      PushDistinct(w, q, t);
    }
  }

  lemma NotLinked(v: Table, p: nat, x: nat, t: nat)
    requires p < |v| && Distinct(v) && Absent(v, t) && x != t
    ensures Absent(Link(v, p, x), t)
  {
    CountHas(v, t);
    CountHas(Link(v, p, x), t);
    forall k: nat
      ensures !Has(Link(v, p, x), k, t)
    {
      LinkHas(v, p, x, k, t);
    }
  }

  /** The ready queues after a Reply with agreeing sizes. A task that replies to itself is
      linked once: the second scheduler_put finds it at the end of its queue. */
  lemma ReplyQueues(s: Kernel, t: nat, target: nat, rep: seq<Byte>)
    requires Placed(s, s.stranded + {t}) && target < s.nextFree
    ensures var s1, s' := Answering(s, t, target, rep), Answer(s, t, target, rep).0;
      && s1.ready == Link(s.ready, s.tds[target].priority, target) && Distinct(s1.ready)
      && s'.ready == (if target == t then s1.ready else Push(s1.ready, s.tds[t].priority, t)) && Distinct(s'.ready)
      && s'.sendq == s.sendq && s'.waiting == s.waiting
      && (t in s1.ready[s.tds[t].priority] <==> target == t)
      && (target != t ==> Absent(s1.ready, t))
  {
    TargetPlace(s, t, target);
    TwoPuts(s.ready, s.tds[target].priority, target, s.tds[t].priority, t);
  }

  /** Putting a task that is last in its queue changes nothing. */
  lemma LinkingLast(q: seq<nat>, t: nat)
    requires t !in q
    ensures Linking(Linking(q, t), t) == Linking(q, t) == q + [t]
  {
    ThroughAt(q + [t], t, |q|);
  }

  /** Nobody is lost except those behind the target: with agreeing sizes, the ready queues
      hold afterwards exactly the caller, the target, and whoever was ready and not behind
      the target, each at its priority. */
  lemma ReplyLosesExactly(s: Kernel, t: nat, target: nat, rep: seq<Byte>, k: nat, x: nat)
    requires Placed(s, s.stranded + {t}) && target < s.nextFree && s.tds[target].repLen == |rep|
    ensures var s', p := KernelReply(s, t, target, rep).0, s.tds[target].priority;
      Has(s'.ready, k, x) <==>
        || (k == s.tds[t].priority && x == t) || (k == p && x == target)
        || (Has(s.ready, k, x) && !(k == p && Behind(s.ready, p, target, x)))
  {
    var s1, p := Answering(s, t, target, rep), s.tds[target].priority;
    ReplyQueues(s, t, target, rep);
    LinkHas(s.ready, p, target, k, x);
    if target != t { PushHas(s1.ready, s.tds[t].priority, t); }
  }

  /** With agreeing sizes a Reply leaves somebody in two queues exactly when its target is
      another task that waits in a send queue or an await queue: that task becomes ready
      without leaving its queue. */
  lemma ReplyTwoPlacesIff(s: Kernel, t: nat, target: nat, rep: seq<Byte>)
    requires Placed(s, s.stranded + {t}) && target < s.nextFree && s.tds[target].repLen == |rep|
    ensures NobodyTwice(KernelReply(s, t, target, rep).0) <==>
            || target == t || target in s.stranded
            || (s.tds[target].state != ReceiveBlocked && s.tds[target].state != EventBlocked)
  {
    var s' := KernelReply(s, t, target, rep).0;
    assert s'.sendq == s.sendq && s'.waiting == s.waiting;
    forall x: nat
      ensures Count(s'.ready, x) + Count(s.sendq, x) + Count(s.waiting, x) <=
        if x == target then 1 + Count(s.sendq, x) + Count(s.waiting, x) else 1
    {
      StillOnce(s, t, target, rep, x);
    }
    assert Count(s'.ready, target) >= 1 by {
      ReplyLosesExactly(s, t, target, rep, s.tds[target].priority, target);
      CountHas(s'.ready, target);
    }
    QueuesByState(s, s.stranded + {t}, target);
  }

  /** So nothing goes wrong exactly when the target is another task that is in no queue. */
  lemma ReplySafeIff(s: Kernel, t: nat, target: nat, rep: seq<Byte>)
    requires Placed(s, s.stranded + {t}) && target < s.nextFree && s.tds[target].repLen == |rep|
    ensures (target != t && target !in s.ready[s.tds[target].priority] && NobodyTwice(KernelReply(s, t, target, rep).0))
            <==> target != t && (Parked(s.tds[target].state) || target in s.stranded)
  {
    ReplyTwoPlacesIff(s, t, target, rep);
    var hand, p := s.stranded + {t}, s.tds[target].priority;
    assert target in s.ready[p] <==> Has(s.ready, p, target);
    if target !in hand { assert PutDown(s, target); }
  }

  /** Whoever is not the target is in at most one queue after a Reply. */
  lemma StillOnce(s: Kernel, t: nat, target: nat, rep: seq<Byte>, x: nat)
    requires Placed(s, s.stranded + {t}) && target < s.nextFree && s.tds[target].repLen == |rep|
    ensures var s' := KernelReply(s, t, target, rep).0;
      Count(s'.ready, x) <= 1
      && (x != target ==> Count(s'.ready, x) + Count(s.sendq, x) + Count(s.waiting, x) <= 1)
  {
    var s' := KernelReply(s, t, target, rep).0;
    ReplyQueues(s, t, target, rep);
    assert Count(s'.ready, x) <= 1;
    QueuePlaces(s, s.stranded + {t}, x);
    if Count(s'.ready, x) > 0 && x != target && x != t {
      CountHas(s'.ready, x);
      var k: nat :| Has(s'.ready, k, x);
      ReplyLosesExactly(s, t, target, rep, k, x);
      CountHas(s.ready, x);
    }
  }

  /** Which queues a task is in, by its state. */
  lemma QueuesByState(s: Kernel, hand: set<nat>, x: nat)
    requires Placed(s, hand) && x < s.nextFree
    ensures Count(s.sendq, x) + Count(s.waiting, x) ==
            if x !in hand && (s.tds[x].state == ReceiveBlocked || s.tds[x].state == EventBlocked) then 1 else 0
  {
    QueuePlaces(s, hand, x);
    CountHas(s.ready, x);
    CountHas(s.sendq, x);
    CountHas(s.waiting, x);
    if x !in hand { assert PutDown(s, x); }
  }

  /** The rendezvous rules survive a Reply with agreeing sizes exactly when its target is
      REPLY_BLOCKED. */
  lemma ReplyKeepsRulesIff(s: Kernel, t: nat, target: nat, rep: seq<Byte>)
    requires AllTalk(s, {t}) && Created(s, t) && s.tds[t].state == Ready
    requires StageOf(s.log, t) == InCall(Reply(target, rep)) && s.nextFree == TaskCount(s.log)
    requires target < s.nextFree && s.tds[target].repLen == |rep|
    ensures Legal(Finish(KernelReply(s, t, target, rep), t).log) <==> s.tds[target].state == ReplyBlocked
  {
    var s' := Finish(KernelReply(s, t, target, rep), t);
    var h := Then(s.log, Answered(target, t, rep));
    assert s'.log == Then(h, Returned(t, 0));
    if target != t { assert Talks(s, target); }
  }
}
