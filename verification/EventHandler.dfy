/** The await queues of src/event_handler/event_handler.c. */
module EventHandlers {

  import opened Tables
  import opened KernelTypes
  import opened QueueTables
  import opened Schedulers
  import opened EventDelivery

  class EventHandler {
    const queues: QueueTable
    const sch: Scheduler

    ghost predicate Valid()
      reads this, queues, queues.Repr, sch, sch.Repr
    {
      && queues.Valid() && sch.Valid() && queues.Repr !! sch.Repr
      && this !in queues.Repr && this !in sch.Repr
      && |queues.qs| == MAX_EVENTS && |queues.pool| == MAX_TASKS
    }

    constructor (sch: Scheduler)
      requires sch.Valid() && forall o: object :: o in sch.Repr ==> allocated(o)
      ensures Valid() && this.sch == sch && fresh(queues.Repr)
      ensures queues.view == Empties(16)
    {
      this.sch := sch;
      queues := new QueueTable(MAX_EVENTS, MAX_TASKS);
    }

    /** -1 for an unknown event; otherwise `t` waits behind all others. */
    method AddTask(event: int, tds: array<Task>, t: nat) returns (r: int)
      requires Valid() && tds !in queues.Repr && tds !in sch.Repr
      requires tds.Length == MAX_TASKS && t < MAX_TASKS && Absent(queues.view, t)
      modifies queues.Repr, tds
      ensures Valid()
      ensures if event < 0 || event >= MAX_EVENTS
              then r == -1 && queues.view == old(queues.view) && tds[..] == old(tds[..])
              else r == 0 && queues.view == Push(old(queues.view), event, t)
                   && tds[..] == old(tds[..])[t := old(tds[t]).(state := EventBlocked)]
    {
      if event < 0 || event >= MAX_EVENTS {
        return -1;
      }
      tds[t] := tds[t].(state := EventBlocked);
      queues.Put(event, t);
      return 0;
    }

    ghost function Snapshot(tds: array<Task>): Waiters
      reads this, queues, sch, sch.queues, tds
    {
      Waiters(queues.view, sch.queues.view, tds[..])
    }

    /** The body of the loop: the front waiter gets the value and becomes ready. */
    method WakeFront(event: nat, value: int, tds: array<Task>)
      requires Valid() && tds !in queues.Repr && tds !in sch.Repr
      requires Orderly(Snapshot(tds)) && Bounded(Snapshot(tds), event) && queues.view[event] != []
      modifies queues.Repr, sch.Repr, tds
      ensures Valid() && Orderly(Snapshot(tds)) && Bounded(Snapshot(tds), event)
      ensures Snapshot(tds) == FrontWoken(old(Snapshot(tds)), event, value)
    {
      FrontWokenOrderly(Snapshot(tds), event, value);
      FrontWokenBounded(Snapshot(tds), event, value);
      var t := queues.Get(event);
      tds[t] := tds[t].(slot := value);
      sch.Put(tds, t);
      assert tds[..] == old(tds[..])[t := Awake(old(tds[t]), value)];
    }

    /** Drains the await queue of `event`: every waiter gets the event's value and goes to
        the ready queue of its priority, keeping the waiting order. */
    method HandleEvent(event: int, value: int, tds: array<Task>) returns (r: int)
      requires Valid() && tds !in queues.Repr && tds !in sch.Repr && Orderly(Snapshot(tds))
      requires 0 <= event < MAX_EVENTS ==> Bounded(Snapshot(tds), event)
      modifies queues.Repr, sch.Repr, tds
      ensures Valid()
      ensures if event < 0 || event >= MAX_EVENTS
              then r == -1 && Snapshot(tds) == old(Snapshot(tds))
              else r == 0 && Delivered(old(Snapshot(tds)), Snapshot(tds), event, value)
    {
      if event < 0 || event >= MAX_EVENTS {
        return -1;
      }
      var empty := queues.Empty(event);
      while !empty
        invariant Valid() && Orderly(Snapshot(tds)) && Bounded(Snapshot(tds), event) && empty == (queues.view[event] == [])
        invariant forall end: Waiters :: Delivered(Snapshot(tds), end, event, value) ==>
                    Delivered(old(Snapshot(tds)), end, event, value)
        decreases |queues.view[event]|
      {
        ghost var before := Snapshot(tds);
        WakeFront(event, value, tds);
        forall end: Waiters | Delivered(Snapshot(tds), end, event, value)
          ensures Delivered(before, end, event, value)
        {
          FrontThenRest(before, end, event, value);
        }
        empty := queues.Empty(event);
      }
      NobodyWaits(Snapshot(tds), event, value);
      return 0;
    }

    method Empty() returns (b: bool)
      requires Valid()
      ensures b <==> forall e: nat :: e < MAX_EVENTS ==> queues.view[e] == []
    {
      for i := 0 to MAX_EVENTS
        invariant forall e: nat :: e < i ==> queues.view[e] == []
      {
        var empty := queues.Empty(i);
        if !empty {
          return false;
        }
      }
      return true;
    }
  }
}
