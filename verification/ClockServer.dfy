/** The clock server's lists as they are on the heap: 64 entries with an embedded node
    each, linked into the blocked list or the free list. Sorted insertion relinks nodes
    directly and leaves `blocked.back` as it was. */
module ClockServers {

  import opened Queues
  import opened QueueTables
  import opened ClockSpec
  import opened ClockTheorems

  /** One delay entry: its deadline and its client. */
  datatype Entry = Entry(ticks: int, tid: nat)

  /** `chain` links the nodes of the entries that the sleepers `b` occupy, in this order. */
  ghost predicate Aligned(pool: seq<Node>, chain: seq<Node>, b: seq<Sleeper>) {
    |chain| == |b| && forall i: nat :: i < |b| ==> b[i].entry < |pool| && chain[i] == pool[b[i].entry]
  }

  /** The entries of the sleepers hold their deadlines and clients. */
  ghost predicate Filled(entries: seq<Entry>, b: seq<Sleeper>) {
    forall i: nat :: i < |b| ==>
      b[i].entry < |entries| && entries[b[i].entry] == Entry(b[i].deadline, b[i].tid)
  }

  lemma InsertAligned(pool: seq<Node>, chain: seq<Node>, b: seq<Sleeper>, k: nat, x: Sleeper)
    requires Aligned(pool, chain, b) && k <= |b| && x.entry < |pool|
    ensures Aligned(pool, chain[..k] + [pool[x.entry]] + chain[k..], InsertAt(b, k, x))
  {
    var c := chain[..k] + [pool[x.entry]] + chain[k..];
    forall i: nat | i <= |b|
      ensures InsertAt(b, k, x)[i].entry < |pool| && c[i] == pool[InsertAt(b, k, x)[i].entry]
    {
      InsertIndex(b, k, x, i);
      assert c[i] == if i < k then chain[i] else if i == k then pool[x.entry] else chain[i - 1];
    }
  }

  lemma InsertFilled(entries: seq<Entry>, b: seq<Sleeper>, k: nat, x: Sleeper)
    requires Filled(entries, b) && k <= |b| && x.entry < |entries| && entries[x.entry] == Entry(x.deadline, x.tid)
    ensures Filled(entries, InsertAt(b, k, x))
  {
    var b' := InsertAt(b, k, x);
    forall i: nat | i < |b'|
      ensures b'[i].entry < |entries| && entries[b'[i].entry] == Entry(b'[i].deadline, b'[i].tid)
    {
      InsertIndex(b, k, x, i);
    }
  }

  class Server {
    var ticks: nat
    const blocked: Queue
    const freeList: Queue
    const entries: array<Entry>
    const pool: seq<Node>
    ghost var sleepers: seq<Sleeper>
    ghost var free: seq<nat>
    ghost var arrivals: nat
    ghost const Repr: set<object>

    ghost predicate Fixed() {
      && this in Repr && blocked in Repr && freeList in Repr && entries in Repr && blocked != freeList
      && |pool| == ENTRIES && entries.Length == ENTRIES
      && (forall i: nat :: i < ENTRIES ==> pool[i] in Repr && pool[i].data == i)
      && (forall i: nat, j: nat :: i < j < ENTRIES ==> pool[i] != pool[j])
    }

    /** The blocked list, front first, links the entries of the sleepers and ends in null;
        nothing is known about its `back`. */
    ghost predicate BlockedOk()
      requires Fixed()
      reads this, Repr
    {
      && Aligned(pool, blocked.chain, sleepers) && Filled(entries[..], sleepers)
      && (forall n: Node :: n in blocked.chain ==> n in Repr)
      && blocked.Linked()
    }

    ghost predicate FreeOk()
      requires Fixed()
      reads this, Repr
    {
      && |free| == |freeList.chain|
      && (forall i: nat :: i < |free| ==> free[i] < ENTRIES && freeList.chain[i] == pool[free[i]])
      && (forall n: Node :: n in freeList.chain ==> n in Repr)
      && freeList.Linked() && freeList.BackOk()
    }

    ghost predicate Valid()
      reads this, Repr
    {
      Fixed() && BlockedOk() && FreeOk()
      && (forall n: Node :: n in blocked.chain ==> n !in freeList.chain)
    }

    ghost function Abs(): Clock
      reads this
    {
      Clock(ticks, sleepers, free, arrivals)
    }

    /** Nobody sleeps, and all entries are on the free list. */
    constructor ()
      ensures Valid() && fresh(Repr) && Abs() == Start()
    {
      ticks := 0;
      var b := new Queue();
      var f := new Queue();
      var e := new Entry[ENTRIES](i => Entry(0, 0));
      var nodes := MakeNodes(ENTRIES);
      blocked, freeList, entries, pool := b, f, e, nodes;
      sleepers, arrivals := [], 0;
      free := [];
      Repr := {this, b, f, e} + (set k: nat | k < ENTRIES :: nodes[k] as object);
      new;
      FillFreeList();
    }

    /** All entries start out free. */
    method FillFreeList()
      requires Valid() && Abs() == Clock(0, [], [], 0)
      modifies Repr
      ensures Valid() && Abs() == Start()
    {
      for i := 0 to ENTRIES
        invariant Valid() && Abs() == old(Abs()).(free := seq(i, k => k))
      {
        forall k: nat | k < i
          ensures freeList.chain[k] != pool[i]
        {
          assert free[k] == k;
        }
        GiveBack(i);
        assert free == seq(i + 1, k => k);
      }
    }

    // ----- Moving one entry -----

    ghost predicate Unlinked(e: nat)
      requires Fixed() && e < ENTRIES
      reads this, Repr
    {
      pool[e] !in blocked.chain && pool[e] !in freeList.chain
    }

    /** queue_put on the free list */
    method GiveBack(e: nat)
      requires Valid() && e < ENTRIES && Unlinked(e)
      modifies Repr
      ensures Valid() && Abs() == old(Abs()).(free := old(free) + [e])
    {
      var err := freeList.Put(pool[e]);
      free := free + [e];
      blocked.Undisturbed();
    }

    /** queue_get on the free list */
    method TakeFree() returns (e: nat)
      requires Valid() && free != []
      modifies Repr
      ensures Valid() && Abs() == old(Abs()).(free := old(free)[1..])
      ensures e == old(free)[0] && e < ENTRIES && Unlinked(e)
    {
      var r := freeList.Get();
      e := r.value;
      free := free[1..];
      blocked.Undisturbed();
    }

    /** queue_get on the blocked list */
    method TakeFront() returns (e: nat)
      requires Valid() && sleepers != []
      modifies Repr
      ensures Valid() && Abs() == old(Abs()).(blocked := old(sleepers)[1..])
      ensures e == old(sleepers)[0].entry && e < ENTRIES && Unlinked(e)
    {
      var r := blocked.Get();
      e := r.value;
      sleepers := sleepers[1..];
      freeList.Undisturbed();
    }

    // ----- Sorted insertion -----

    /** queue_put_front on the blocked list */
    method LinkFront(e: nat, ghost x: Sleeper)
      requires Valid() && e < ENTRIES && Unlinked(e)
      requires x.entry == e && entries[e] == Entry(x.deadline, x.tid)
      modifies Repr
      ensures Valid() && Abs() == old(Abs()).(blocked := InsertAt(old(sleepers), 0, x))
    {
      InsertAligned(pool, blocked.chain, sleepers, 0, x);
      InsertFilled(entries[..], sleepers, 0, x);
      assert blocked.chain[..0] + [pool[e]] + blocked.chain[0..] == [pool[e]] + blocked.chain;
      var err := blocked.PutFront(pool[e]);
      sleepers := InsertAt(sleepers, 0, x);
      freeList.Undisturbed();
    }

    /** Links the node of entry `e` behind node number `i` of the blocked list. */
    method LinkAfter(e: nat, curr: Node, ghost i: nat, ghost x: Sleeper)
      requires Valid() && e < ENTRIES && Unlinked(e)
      requires x.entry == e && entries[e] == Entry(x.deadline, x.tid)
      requires i < |sleepers| && curr == blocked.chain[i]
      modifies Repr
      ensures Valid() && Abs() == old(Abs()).(blocked := InsertAt(old(sleepers), i + 1, x))
    {
      InsertAligned(pool, blocked.chain, sleepers, i + 1, x);
      InsertFilled(entries[..], sleepers, i + 1, x);
      InsertBehind(blocked, curr, pool[e], i);
      assert entries[..] == old(entries[..]);
      sleepers := InsertAt(sleepers, i + 1, x);
      freeList.Undisturbed();
    }

    /** Walks past every sleeper whose deadline is not after `d`. */
    method LastNotAfter(d: int) returns (curr: Node, ghost i: nat)
      requires Valid() && sleepers != [] && sleepers[0].deadline <= d
      ensures i < |sleepers| && curr == blocked.chain[i] && Position(sleepers, d) == i + 1
    {
      curr := blocked.front;
      i := 0;
      while curr.next != null
        invariant i < |sleepers| && curr == blocked.chain[i]
        invariant forall k: nat :: k <= i ==> sleepers[k].deadline <= d
        decreases |sleepers| - i
      {
        assert i + 1 < |sleepers| && curr.next == blocked.chain[i + 1];
        if entries[curr.next.data].ticks > d {
          break;
        }
        curr := curr.next;
        i := i + 1;
      }
      PositionIs(sleepers, d, i + 1);
    }

    /** The new deadline is before all others. */
    method GoesFirst(d: int) returns (b: bool)
      requires Valid()
      ensures b <==> Position(sleepers, d) == 0
      ensures !b ==> sleepers != [] && sleepers[0].deadline <= d
    {
      b := NobodySleeps();
      if !b {
        var front := FrontEntry();
        b := front.ticks > d;
      }
    }

    method Insert(e: nat, ghost x: Sleeper)
      requires Valid() && e < ENTRIES && Unlinked(e)
      requires x.entry == e && entries[e] == Entry(x.deadline, x.tid)
      modifies Repr
      ensures Valid()
      ensures Abs() == old(Abs()).(blocked := InsertAt(old(sleepers), Position(old(sleepers), x.deadline), x))
    {
      var d := entries[e].ticks;
      var first := GoesFirst(d);
      if first {
        LinkFront(e, x);
      } else {
        var curr, i := LastNotAfter(d);
        LinkAfter(e, curr, i, x);
      }
    }

    // ----- Requests -----

    /** The front sleeper leaves and its entry is free again. */
    method Release()
      requires Valid() && sleepers != []
      modifies Repr
      ensures Valid()
      ensures Abs() == old(Abs()).(blocked := old(sleepers)[1..], free := old(free) + [old(sleepers)[0].entry])
    {
      var e := TakeFront();
      GiveBack(e);
    }

    method Advance()
      requires Valid()
      modifies Repr
      ensures Valid() && Abs() == old(Abs()).(ticks := (old(ticks) + 1) % TWO32)
    {
      ticks := (ticks + 1) % TWO32;
    }

    ghost method CountArrival()
      requires Valid()
      modifies Repr
      ensures Valid() && Abs() == old(Abs()).(arrivals := old(arrivals) + 1)
    {
      arrivals := arrivals + 1;
    }

    method NobodySleeps() returns (b: bool)
      requires Valid()
      ensures b <==> sleepers == []
    {
      b := blocked.Empty();
    }

    /** queue_peek on the blocked list */
    method FrontEntry() returns (entry: Entry)
      requires Valid() && sleepers != []
      ensures entry == Entry(sleepers[0].deadline, sleepers[0].tid)
    {
      var front := blocked.Peek();
      entry := entries[front.value];
    }

    method OnTick(sender: nat, msg: Msg) returns (answers: seq<Answer>)
      requires Valid() && (sleepers != [] ==> Int(sleepers[0].deadline))
      modifies Repr
      ensures Valid() && (Abs(), answers) == ClockSpec.OnTick(old(Abs()), sender, msg)
    {
      answers := [Answer(sender, msg)];
      Advance();
      var due, tid := FrontDue();
      if due {
        Release();
        answers := [Answer(sender, msg), Answer(tid, Msg(Tick, ToInt(ticks)))];
      }
    }

    /** Whether the front sleeper is to be released now, and its client. */
    method FrontDue() returns (due: bool, tid: nat)
      requires Valid() && (sleepers != [] ==> Int(sleepers[0].deadline))
      ensures due <==> ClockSpec.FrontDue(Abs(), ticks)
      ensures due ==> tid == sleepers[0].tid
    {
      due, tid := false, 0;
      var empty := NobodySleeps();
      if !empty {
        var entry := FrontEntry();
        due, tid := ticks > ToUnsigned(entry.ticks), entry.tid;
      }
    }

    method OnDelayUntil(sender: nat, d: int) returns (answers: seq<Answer>)
      requires Valid() && ticks < TWO32 && Int(d) && free != []
      modifies Repr
      ensures Valid() && (Abs(), answers) == ClockSpec.OnDelayUntil(old(Abs()), sender, d)
    {
      if d <= 0 {
        return [Answer(sender, Msg(Error, 0))];
      }
      if ToUnsigned(d) < ticks {
        return [Answer(sender, Msg(Tick, ToInt(ticks)))];
      }
      Sleep(sender, d);
      return [];
    }

    method Sleep(sender: nat, d: int)
      requires Valid() && free != []
      modifies Repr
      ensures Valid() && Abs() == Block(old(Abs()), sender, d)
    {
      var e := TakeFree();
      FillEntry(e, Entry(d, sender));
      Insert(e, Sleeper(d, sender, e, arrivals));
      CountArrival();
    }

    /** Writing into an entry that no sleeper occupies. */
    method FillEntry(e: nat, entry: Entry)
      requires Valid() && e < ENTRIES && Unlinked(e)
      modifies Repr
      ensures Valid() && Abs() == old(Abs()) && Unlinked(e) && entries[e] == entry
    {
      forall i: nat | i < |sleepers|
        ensures sleepers[i].entry != e
      {
        assert blocked.chain[i] == pool[sleepers[i].entry];
      }
      entries[e] := entry;
    }

    method OnDelay(sender: nat, n: int) returns (answers: seq<Answer>)
      requires Valid() && ticks < TWO32 && Int(n) && free != []
      modifies Repr
      ensures Valid() && (Abs(), answers) == ClockSpec.OnDelay(old(Abs()), sender, n)
    {
      if n <= 0 {
        return [Answer(sender, Msg(Error, 0))];
      }
      answers := OnDelayUntil(sender, Deadline(ticks, n));
    }

    /** One turn of the server loop for a request other than the exit request. */
    method Serve(r: Request) returns (answers: seq<Answer>)
      requires Valid() && ClockSpec.Valid(Abs()) && Polite(Abs(), r)
      modifies Repr
      ensures old(free) != []
      ensures Valid() && ClockSpec.Valid(Abs()) && (Abs(), answers) == Step(old(Abs()), r)
    {
      StepKeepsValid(Abs(), r);
      assert sleepers != [] ==> SleeperOk(Abs(), sleepers[0]);
      match r.msg.kind
      case Tick => answers := OnTick(r.sender, r.msg);
      case Time => answers := [Answer(r.sender, Msg(Time, ToInt(ticks)))];
      case Delay => answers := OnDelay(r.sender, r.msg.time);
      case DelayUntil => answers := OnDelayUntil(r.sender, r.msg.time);
      case Error => answers := [];
    }

    /** The server loop over any sequence of requests, one step for each: it goes through
        the run of the step system, so that what holds of every such run holds of the heap
        server. `cs` are the states between the requests. */
    method ServeAll(rs: seq<Request>) returns (answers: seq<seq<Answer>>, ghost cs: seq<Clock>)
      requires Valid() && ClockSpec.Valid(Abs()) && Courteous(Abs(), rs)
      modifies Repr
      ensures Valid() && Trace(cs, rs, answers) && cs[0] == old(Abs()) && cs[|rs|] == Abs()
      ensures Abs() == Run(old(Abs()), rs) && answers == Replies(old(Abs()), rs)
    {
      cs := RunTrace(Abs(), rs);
      answers := ServeTrace(rs, cs, Replies(Abs(), rs));
    }

    method ServeTrace(rs: seq<Request>, ghost cs: seq<Clock>, ghost all: seq<seq<Answer>>)
      returns (answers: seq<seq<Answer>>)
      requires Valid() && ClockSpec.Valid(Abs()) && Trace(cs, rs, all) && Abs() == cs[0]
      modifies Repr
      ensures Valid() && ClockSpec.Valid(Abs()) && Abs() == cs[|rs|] && answers == all
    {
      answers := [];
      for i := 0 to |rs|
        invariant Valid() && ClockSpec.Valid(Abs()) && Abs() == cs[i]
        invariant |answers| == i && forall k: nat :: k < i ==> answers[k] == all[k]
      {
        var a := ServeAt(rs, i, cs, all);
        answers := answers + [a];
      }
    }

    method ServeAt(rs: seq<Request>, i: nat, ghost cs: seq<Clock>, ghost all: seq<seq<Answer>>)
      returns (answers: seq<Answer>)
      requires Valid() && ClockSpec.Valid(Abs()) && Trace(cs, rs, all) && i < |rs| && Abs() == cs[i]
      modifies Repr
      ensures Valid() && ClockSpec.Valid(Abs()) && Abs() == cs[i + 1] && answers == all[i]
    {
      assert TraceAt(cs, rs, all, i);
      answers := Serve(rs[i]);
    }
  }

  /** The three assignments of the sorted insert: `node` is linked behind `curr`. */
  method InsertBehind(q: Queue, curr: Node, node: Node, ghost i: nat)
    requires q.Linked() && i < |q.chain| && curr == q.chain[i] && node !in q.chain
    modifies q, curr, node
    ensures q.Linked() && q.chain == old(q.chain)[..i + 1] + [node] + old(q.chain)[i + 1..]
  {
    InsertedAt(q.chain, i, node);
    node.next := curr.next;
    curr.next := node;
    q.elements := q.elements + 1;
    q.chain := q.chain[..i + 1] + [node] + q.chain[i + 1..];
  }

  /** Where the nodes are once `node` is inserted behind position `i`. */
  lemma InsertedAt(was: seq<Node>, i: nat, node: Node)
    requires i < |was| && node !in was
    requires forall j: nat, k: nat :: j < k < |was| ==> was[j] != was[k]
    ensures var now := was[..i + 1] + [node] + was[i + 1..];
      && |now| == |was| + 1
      && (forall k: nat :: k < |now| ==> now[k] == if k <= i then was[k] else if k == i + 1 then node else was[k - 1])
      && (forall j: nat, k: nat :: j < k < |now| ==> now[j] != now[k])
  {
  }

  lemma PositionIs(b: seq<Sleeper>, d: int, k: nat)
    requires k <= |b| && (forall i: nat :: i < k ==> b[i].deadline <= d) && (k < |b| ==> b[k].deadline > d)
    ensures Position(b, d) == k
  {
  }
}
