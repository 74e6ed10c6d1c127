/** The 64-level scheduler of src/scheduler/scheduler.c: one ready queue per priority and
    a bitmap of the non-empty ones. */
module Schedulers {

  import opened Options
  import opened Tables
  import opened KernelTypes
  import opened QueueTables
  import opened Bitmap

  class Scheduler {
    var bitmap: Word
    const queues: QueueTable
    ghost const Repr: set<object>

    /** Bit p of the bitmap is set exactly when ready queue p is not empty. */
    ghost predicate Sane()
      reads this, Repr
    {
      && this in Repr && queues in Repr && queues.Repr <= Repr && this !in queues.Repr
      && |queues.qs| == PRIORITIES && |queues.pool| == MAX_TASKS && queues.Sane()
      && forall p: nat :: p < PRIORITIES ==> (Bit(bitmap, p) <==> queues.view[p] != [])
    }

    /** All ready queues are proper queues. */
    ghost predicate Valid()
      reads this, Repr
    {
      Sane() && queues.Valid()
    }

    constructor ()
      ensures Valid() && fresh(Repr)
      ensures queues.view == Empties(64)
    {
      bitmap := 0;
      var table := new QueueTable(PRIORITIES, MAX_TASKS);
      queues := table;
      Repr := {this} + table.Repr;
      new;
      forall p: nat | p < PRIORITIES
        ensures !Bit(bitmap, p)
      {
        NoBit(p);
      }
    }

    /** The oldest task of the smallest non-empty priority number. */
    method Get() returns (r: Option<nat>)
      requires Valid()
      modifies Repr
      ensures Valid()
      ensures var p := Lowest(old(queues.view));
        if p == PRIORITIES then r == None && queues.view == old(queues.view)
        else r == Some(old(queues.view)[p][0]) && queues.view == Pop(old(queues.view), p)
    {
      var empty := Empty();
      if empty {
        return None;
      }
      ZeroWhenEmpty();
      var idx := LeadingZeroes(bitmap);
      LowestIs(bitmap, idx, queues.view);
      var t := queues.Get(idx);
      var drained := queues.Empty(idx);
      if drained {
        forall q: nat
          ensures Bit(ClearBit(bitmap, idx), q) <==> q != idx && Bit(bitmap, q)
        {
          ClearBitBits(bitmap, idx, q);
        }
        bitmap := ClearBit(bitmap, idx);
      }
      return Some(t);
    }

    /** scheduler_put: `t` becomes READY and its node is put in the ready queue of its
        priority. Nothing checks that it is not in there already; if it is, everybody behind
        it is lost and that queue is no proper queue any more. */
    method Put(tds: array<Task>, t: nat)
      requires Sane() && tds !in Repr && tds.Length == MAX_TASKS && t < MAX_TASKS
      requires tds[t].priority < PRIORITIES && (t in queues.view[tds[t].priority] || Absent(queues.view, t))
      modifies Repr, tds
      ensures Sane() && queues.view == Link(old(queues.view), old(tds[t].priority), t)
      ensures forall p: nat :: p < PRIORITIES ==>
        queues.qs[p].elements == old(queues.qs[p].elements) + if p == old(tds[t].priority) then 1 else 0
      ensures old(Valid()) ==> (Valid() <==> t !in old(queues.view)[old(tds[t].priority)])
      ensures Absent(old(queues.view), t) ==> t !in old(queues.view)[old(tds[t].priority)]
      ensures tds[..] == old(tds[..])[t := old(tds[t]).(state := Ready)]
    {
      var p := tds[t].priority;
      queues.Put(p, t);
      MarkReady(p);
      tds[t] := tds[t].(state := Ready);
    }

    /** bitmap |= 1 << p */
    method MarkReady(p: nat)
      requires p < PRIORITIES
      modifies this`bitmap
      ensures forall q: nat :: Bit(bitmap, q) <==> q == p || Bit(old(bitmap), q)
    {
      WordBound();
      forall q: nat
        ensures Bit(SetBit(bitmap, p, 64), q) <==> q == p || Bit(bitmap, q)
      {
        SetBitBits(bitmap, p, 64, q);
      }
      bitmap := SetBit(bitmap, p, 64);
    }

    method Empty() returns (b: bool)
      requires Valid()
      ensures b <==> Lowest(queues.view) == PRIORITIES
    {
      ZeroWhenEmpty();
      return bitmap == 0;
    }

    lemma ZeroWhenEmpty()
      requires Valid()
      ensures bitmap == 0 <==> Lowest(queues.view) == PRIORITIES
    {
      WordBound();
      var p := Lowest(queues.view);
      if bitmap != 0 {
        var q := SomeBit(bitmap, 64);
      } else if p < PRIORITIES {
        NoBit(p);
      }
    }
  }

  lemma LowestIs(w: nat, p: nat, v: Table)
    requires LowestBit(w, p) && p < |v| && forall q: nat :: q < |v| ==> (Bit(w, q) <==> v[q] != [])
    ensures Lowest(v) == p
  {
  }
}
