/** What the clock server guarantees to its sleepers, over every sequence of requests. */
module ClockTheorems {

  import opened Counting
  import opened ClockSpec

  // ----- There is always a free entry -----

  /** Whoever sends a request is awake, so fewer than 64 tasks sleep and an entry is free:
      queue_get on the free list never returns NULL. */
  lemma FreeEntry(c: Clock, sender: nat)
    requires Valid(c) && sender < ENTRIES && sender !in Tids(c.blocked)
    ensures c.free != []
  {
    OneMore(Tids(c.blocked), sender);
    Pigeonhole(Tids(c.blocked) + [sender], ENTRIES);
  }

  lemma OneMore(s: seq<nat>, x: nat)
    requires Different(s, ENTRIES) && x < ENTRIES && x !in s
    ensures Different(s + [x], ENTRIES)
  {
    OccIn(s, x);
    forall y: nat
      ensures Occ(s + [x], y) <= if y < ENTRIES then 1 else 0
    {
      OccConcat(s, [x], y);
      assert Occ(s, y) <= if y < ENTRIES then 1 else 0;
    }
  }

  // ----- Inserting keeps the order -----

  lemma InsertSorted(b: seq<Sleeper>, x: Sleeper)
    requires Sorted(b) && forall i: nat :: i < |b| ==> b[i].arrival < x.arrival
    ensures Sorted(InsertAt(b, Position(b, x.deadline), x))
  {
    var k := Position(b, x.deadline);
    var b' := InsertAt(b, k, x);
    forall i: nat, j: nat | i < j < |b'|
      ensures Before(b'[i], b'[j])
    {
      InsertIndex(b, k, x, i);
      InsertIndex(b, k, x, j);
      if i == k && j - 1 > k { assert Before(b[k], b[j - 1]); }
    }
  }

  lemma InsertIndex(b: seq<Sleeper>, k: nat, x: Sleeper, i: nat)
    requires k <= |b| && i <= |b|
    ensures InsertAt(b, k, x)[i] == if i < k then b[i] else if i == k then x else b[i - 1]
  {
  }

  lemma {:induction false} EntriesConcat(a: seq<Sleeper>, b: seq<Sleeper>)
    ensures Entries(a + b) == Entries(a) + Entries(b)
  {
    if a == [] {
      assert a + b == b;
    } else {
      assert (a + b)[1..] == a[1..] + b;
      EntriesConcat(a[1..], b);
    }
  }

  lemma {:induction false} TidsConcat(a: seq<Sleeper>, b: seq<Sleeper>)
    ensures Tids(a + b) == Tids(a) + Tids(b)
  {
    if a == [] {
      assert a + b == b;
    } else {
      assert (a + b)[1..] == a[1..] + b;
      TidsConcat(a[1..], b);
    }
  }

  lemma InsertOcc(b: seq<Sleeper>, k: nat, x: Sleeper, y: nat)
    requires k <= |b|
    ensures Occ(Entries(InsertAt(b, k, x)), y) == Occ(Entries(b), y) + if y == x.entry then 1 else 0
    ensures Occ(Tids(InsertAt(b, k, x)), y) == Occ(Tids(b), y) + if y == x.tid then 1 else 0
  {
    EntriesInsert(b, k, x);
    OccInserted(Entries(b[..k]), Entries(b[k..]), x.entry, y);
    TidsInsert(b, k, x);
    OccInserted(Tids(b[..k]), Tids(b[k..]), x.tid, y);
  }

  lemma EntriesInsert(b: seq<Sleeper>, k: nat, x: Sleeper)
    requires k <= |b|
    ensures Entries(b) == Entries(b[..k]) + Entries(b[k..])
    ensures Entries(InsertAt(b, k, x)) == Entries(b[..k]) + [x.entry] + Entries(b[k..])
  {
    assert b == b[..k] + b[k..];
    EntriesConcat(b[..k], b[k..]);
    EntriesConcat(b[..k] + [x], b[k..]);
    EntriesConcat(b[..k], [x]);
    assert Entries([x]) == [x.entry];
  }

  lemma TidsInsert(b: seq<Sleeper>, k: nat, x: Sleeper)
    requires k <= |b|
    ensures Tids(b) == Tids(b[..k]) + Tids(b[k..])
    ensures Tids(InsertAt(b, k, x)) == Tids(b[..k]) + [x.tid] + Tids(b[k..])
  {
    assert b == b[..k] + b[k..];
    TidsConcat(b[..k], b[k..]);
    TidsConcat(b[..k] + [x], b[k..]);
    TidsConcat(b[..k], [x]);
    assert Tids([x]) == [x.tid];
  }

  lemma OccInserted(s: seq<nat>, t: seq<nat>, x: nat, y: nat)
    ensures Occ(s + [x] + t, y) == Occ(s + t, y) + if y == x then 1 else 0
  {
    OccConcat(s, t, y);
    OccConcat(s + [x], t, y);
    OccConcat(s, [x], y);
  }

  /** The entry moves from the free list to the sleepers; the sender joins them. */
  lemma BlockEntries(c: Clock, sender: nat, d: int)
    requires Different(Entries(c.blocked) + c.free, ENTRIES) && Different(Tids(c.blocked), ENTRIES)
    requires sender < ENTRIES && sender !in Tids(c.blocked) && c.free != []
    ensures var c' := Block(c, sender, d);
      Different(Entries(c'.blocked) + c'.free, ENTRIES) && Different(Tids(c'.blocked), ENTRIES)
  {
    var c' := Block(c, sender, d);
    var x := Sleeper(d, sender, c.free[0], c.arrivals);
    OccIn(Tids(c.blocked), sender);
    forall y: nat
      ensures Occ(Entries(c'.blocked) + c'.free, y) == Occ(Entries(c.blocked) + c.free, y)
      ensures Occ(Tids(c'.blocked), y) <= if y < ENTRIES then 1 else 0
    {
      InsertOcc(c.blocked, Position(c.blocked, d), x, y);
      OccConcat(Entries(c'.blocked), c'.free, y);
      OccConcat(Entries(c.blocked), c.free, y);
      assert Occ(Tids(c.blocked), y) <= if y < ENTRIES then 1 else 0;
    }
  }

  lemma BlockValid(c: Clock, sender: nat, d: int)
    requires Valid(c) && sender < ENTRIES && sender !in Tids(c.blocked) && c.free != []
    requires c.ticks <= d && 1 <= d < TWO31
    ensures Valid(Block(c, sender, d))
  {
    var c' := Block(c, sender, d);
    var x := Sleeper(d, sender, c.free[0], c.arrivals);
    BlockEntries(c, sender, d);
    InsertSorted(c.blocked, x);
    forall i: nat | i < |c'.blocked|
      ensures SleeperOk(c', c'.blocked[i])
    {
      BlockedOk(c, sender, d, i);
    }
  }

  lemma BlockedOk(c: Clock, sender: nat, d: int, i: nat)
    requires c.free != [] && 1 <= d < TWO31 && i <= |c.blocked|
    requires forall j: nat :: j < |c.blocked| ==> SleeperOk(c, c.blocked[j])
    ensures var c' := Block(c, sender, d); |c'.blocked| == |c.blocked| + 1 && SleeperOk(c', c'.blocked[i])
  {
    var k := Position(c.blocked, d);
    InsertIndex(c.blocked, k, Sleeper(d, sender, c.free[0], c.arrivals), i);
    if i < k { assert SleeperOk(c, c.blocked[i]); }
    if i > k { assert SleeperOk(c, c.blocked[i - 1]); }
  }

  /** The front entry moves back to the free list. */
  lemma ReleaseEntries(b: seq<Sleeper>, free: seq<nat>)
    requires b != [] && Different(Entries(b) + free, ENTRIES) && Different(Tids(b), ENTRIES)
    ensures Different(Entries(b[1..]) + (free + [b[0].entry]), ENTRIES) && Different(Tids(b[1..]), ENTRIES)
  {
    forall y: nat
      ensures Occ(Entries(b[1..]) + (free + [b[0].entry]), y) == Occ(Entries(b) + free, y)
      ensures Occ(Tids(b[1..]), y) <= if y < ENTRIES then 1 else 0
    {
      OccConcat(Entries(b[1..]), free + [b[0].entry], y);
      OccConcat(free, [b[0].entry], y);
      OccConcat(Entries(b), free, y);
      assert Occ(Tids(b), y) <= if y < ENTRIES then 1 else 0;
    }
  }

  lemma ReleaseValid(c: Clock)
    requires Valid(c) && c.blocked != [] && c.ticks + 1 > c.blocked[0].deadline
    ensures Valid(c.(ticks := c.ticks + 1, blocked := c.blocked[1..], free := c.free + [c.blocked[0].entry]))
  {
    NoWrap(c);
    ReleaseEntries(c.blocked, c.free);
  }

  /** While somebody sleeps the counter does not wrap. */
  lemma NoWrap(c: Clock)
    requires Valid(c) && c.blocked != []
    ensures c.ticks + 1 < TWO32 && (c.ticks + 1) % TWO32 == c.ticks + 1
    ensures ToUnsigned(c.blocked[0].deadline) == c.blocked[0].deadline
  {
    assert SleeperOk(c, c.blocked[0]);
  }

  lemma NobodyDueValid(c: Clock, ticks: nat)
    requires Valid(c) && ticks < TWO32 && (c.blocked != [] ==> ticks == c.ticks + 1 <= c.blocked[0].deadline)
    ensures Valid(c.(ticks := ticks))
  {
    if c.blocked != [] { assert SleeperOk(c, c.blocked[0]); }
    forall i: nat | i < |c.blocked|
      ensures SleeperOk(c.(ticks := ticks), c.blocked[i])
    {
      assert SleeperOk(c, c.blocked[i]);
    }
  }

  /** A tick, while somebody sleeps. */
  lemma TickForm(c: Clock, sender: nat, msg: Msg)
    requires Valid(c) && c.blocked != []
    ensures c.ticks + 1 < TWO32
    ensures OnTick(c, sender, msg) ==
      if c.ticks + 1 > c.blocked[0].deadline then
        (c.(ticks := c.ticks + 1, blocked := c.blocked[1..], free := c.free + [c.blocked[0].entry]),
         [Answer(sender, msg), Answer(c.blocked[0].tid, Msg(Tick, ToInt(c.ticks + 1)))])
      else (c.(ticks := c.ticks + 1), [Answer(sender, msg)])
  {
    NoWrap(c);
  }

  lemma TickValid(c: Clock, sender: nat, msg: Msg)
    requires Valid(c)
    ensures Valid(OnTick(c, sender, msg).0)
    ensures c.blocked != [] ==> OnTick(c, sender, msg).0.ticks == c.ticks + 1
  {
    if c.blocked == [] {
      NobodyDueValid(c, (c.ticks + 1) % TWO32);
    } else {
      TickForm(c, sender, msg);
      if c.ticks + 1 > c.blocked[0].deadline { ReleaseValid(c); } else { NobodyDueValid(c, c.ticks + 1); }
    }
  }

  /** Every request of an awake task finds its free entry and keeps the invariant. */
  lemma StepKeepsValid(c: Clock, r: Request)
    requires Valid(c) && Polite(c, r)
    ensures c.free != [] && Valid(Step(c, r).0)
  {
    FreeEntry(c, r.sender);
    match r.msg.kind
    case Tick => TickValid(c, r.sender, r.msg);
    case Delay =>
      if r.msg.time > 0 {
        var d := Deadline(c.ticks, r.msg.time);
        if d > 0 && d >= c.ticks { BlockValid(c, r.sender, d); }
      }
    case DelayUntil =>
      if r.msg.time > 0 && r.msg.time >= c.ticks { BlockValid(c, r.sender, r.msg.time); }
    case _ =>
  }

  // ----- What becomes of a delay -----

  /** The complete case analysis of a Delay, for every counter value. The unsigned sum of
      counter and delay decides: below 2^31 the sender sleeps until its exact deadline,
      from 2^31 to 2^32 it gets an error, and beyond it is answered at once although the
      delay has not passed. */
  lemma DelayOutcome(c: Clock, r: Request)
    requires Valid(c) && Polite(c, r) && r.msg.kind == Delay
    ensures c.free != []
    ensures var n := r.msg.time;
      if n <= 0 || TWO31 <= c.ticks + n <= TWO32 then Step(c, r) == (c, [Answer(r.sender, Msg(Error, 0))])
      else if c.ticks + n < TWO31 then Step(c, r) == (Block(c, r.sender, c.ticks + n), [])
      else Step(c, r) == (c, [Answer(r.sender, Msg(Tick, ToInt(c.ticks)))])
  {
    FreeEntry(c, r.sender);
    OnDelayOutcome(c, r.sender, r.msg.time);
  }

  lemma DeadlineValue(ticks: nat, n: int)
    requires ticks < TWO32 && 0 < n < TWO31
    ensures Deadline(ticks, n) == if ticks + n < TWO31 then ticks + n else ticks + n - TWO32
  {
  }

  lemma OnDelayOutcome(c: Clock, sender: nat, n: int)
    requires c.ticks < TWO32 && Int(n) && c.free != []
    ensures
      if n <= 0 || TWO31 <= c.ticks + n <= TWO32 then OnDelay(c, sender, n) == (c, [Answer(sender, Msg(Error, 0))])
      else if c.ticks + n < TWO31 then OnDelay(c, sender, n) == (Block(c, sender, c.ticks + n), [])
      else OnDelay(c, sender, n) == (c, [Answer(sender, Msg(Tick, ToInt(c.ticks)))])
  {
    if n > 0 { DeadlineValue(c.ticks, n); }
  }

  /** So a delay is cut short exactly when the sum of counter and delay exceeds 2^32. */
  lemma DelayCutShort(c: Clock, r: Request)
    requires Valid(c) && Polite(c, r) && r.msg.kind == Delay && r.msg.time > 0
    ensures c.free != []
    ensures Step(c, r).1 == [Answer(r.sender, Msg(Tick, ToInt(c.ticks)))] <==> c.ticks + r.msg.time > TWO32
  {
    DelayOutcome(c, r);
  }

  /** A concrete case: with the counter at its last value, a delay of 5 ticks ends at once. */
  lemma DelayCutShortExample()
    ensures var c := Start().(ticks := 0xFFFF_FFFF);
      Step(c, Request(3, Msg(Delay, 5))) == (c, [Answer(3, Msg(Tick, -1))])
  {
  }

  /** What becomes of the list when somebody goes to sleep: one new sleeper, nobody else. */
  lemma BlockAdds(c: Clock, sender: nat, d: int, x: Sleeper)
    requires c.free != []
    ensures var c' := Block(c, sender, d);
      && (x in c'.blocked <==> x in c.blocked || x == Sleeper(d, sender, c.free[0], c.arrivals))
      && |c'.blocked| == |c.blocked| + 1 && c'.ticks == c.ticks
  {
    var k, y := Position(c.blocked, d), Sleeper(d, sender, c.free[0], c.arrivals);
    assert c.blocked == c.blocked[..k] + c.blocked[k..];
    assert Block(c, sender, d).blocked == c.blocked[..k] + [y] + c.blocked[k..];
  }

  /** The complete case analysis of a DelayUntil, for every counter value: the time it names
      is the deadline itself. */
  lemma DelayUntilOutcome(c: Clock, r: Request, x: Sleeper)
    requires Valid(c) && Polite(c, r) && r.msg.kind == DelayUntil
    ensures c.free != []
    ensures var d, (c', a) := r.msg.time, Step(c, r);
      if d <= 0 then c' == c && a == [Answer(r.sender, Msg(Error, 0))]
      else if d < c.ticks then c' == c && a == [Answer(r.sender, Msg(Tick, ToInt(c.ticks)))]
      else
        && a == [] && c'.ticks == c.ticks && |c'.blocked| == |c.blocked| + 1
        && (x in c'.blocked <==> x in c.blocked || x == Sleeper(d, r.sender, c.free[0], c.arrivals))
  {
    FreeEntry(c, r.sender);
    BlockAdds(c, r.sender, r.msg.time, x);
  }

  /** Reading 32 bits as an int and back, without losing anything. */
  lemma Conversions(u: nat, i: int)
    requires u < TWO32 && Int(i)
    ensures Int(ToInt(u)) && ToUnsigned(ToInt(u)) == u && ToInt(ToUnsigned(i)) == i
    ensures ToUnsigned(i) == i % TWO32
  {
  }

  /** The complete case analysis of a tick: its sender is answered first, with the message it
      sent; then the front sleeper, if the counter has passed its deadline. */
  lemma TickOutcome(c: Clock, r: Request)
    requires Valid(c) && Polite(c, r) && r.msg.kind == Tick
    ensures c.free != []
    ensures var (c', a), now := Step(c, r), (c.ticks + 1) % 0x1_0000_0000;
      && c'.ticks == now
      && if c.blocked != [] && now > c.blocked[0].deadline then
           && a == [Answer(r.sender, r.msg), Answer(c.blocked[0].tid, Msg(Tick, ToInt(now)))]
           && c'.blocked == c.blocked[1..] && c'.free == c.free + [c.blocked[0].entry]
         else a == [Answer(r.sender, r.msg)] && c'.blocked == c.blocked && c'.free == c.free
  {
    FreeEntry(c, r.sender);
    if c.blocked != [] { TickForm(c, r.sender, r.msg); }
  }

  // ----- Runs -----

  /** Every request of the run comes from a task that is awake. */
  ghost predicate Courteous(c: Clock, rs: seq<Request>)
    requires Valid(c)
    decreases |rs|
  {
    rs == [] || (Polite(c, rs[0]) && (StepKeepsValid(c, rs[0]); Courteous(Step(c, rs[0]).0, rs[1..])))
  }

  ghost function Run(c: Clock, rs: seq<Request>): (c': Clock)
    requires Valid(c) && Courteous(c, rs)
    ensures Valid(c')
    decreases |rs|
  {
    if rs == [] then c else (StepKeepsValid(c, rs[0]); Run(Step(c, rs[0]).0, rs[1..]))
  }

  function Ticks(rs: seq<Request>): nat {
    if rs == [] then 0 else (if rs[0].msg.kind == Tick then 1 else 0) + Ticks(rs[1..])
  }

  predicate Answers(a: seq<Answer>, tid: nat) {
    exists i: nat :: i < |a| && a[i].to == tid
  }

  /** Some request of the run leads to an answer for `tid`. */
  ghost predicate AnsweredIn(c: Clock, rs: seq<Request>, tid: nat)
    requires Valid(c) && Courteous(c, rs)
    decreases |rs|
  {
    rs != [] && (StepKeepsValid(c, rs[0]);
                 Answers(Step(c, rs[0]).1, tid) || AnsweredIn(Step(c, rs[0]).0, rs[1..], tid))
  }

  /** The answers to every request of the run. */
  ghost function Replies(c: Clock, rs: seq<Request>): (a: seq<seq<Answer>>)
    requires Valid(c) && Courteous(c, rs)
    ensures |a| == |rs|
    decreases |rs|
  {
    if rs == [] then []
    else (StepKeepsValid(c, rs[0]); [Step(c, rs[0]).1] + Replies(Step(c, rs[0]).0, rs[1..]))
  }

  /** The clock goes through the states `cs` by these requests and gives these answers. */
  ghost predicate Trace(cs: seq<Clock>, rs: seq<Request>, a: seq<seq<Answer>>) {
    |cs| == |rs| + 1 && |a| == |rs| && forall i: nat :: i < |rs| ==> TraceAt(cs, rs, a, i)
  }

  ghost predicate TraceAt(cs: seq<Clock>, rs: seq<Request>, a: seq<seq<Answer>>, i: nat)
    requires i < |rs| == |a| && |cs| == |rs| + 1
  {
    Valid(cs[i]) && Polite(cs[i], rs[i]) && cs[i].free != [] && Step(cs[i], rs[i]) == (cs[i + 1], a[i])
  }

  lemma {:induction false} RunTrace(c: Clock, rs: seq<Request>) returns (cs: seq<Clock>)
    requires Valid(c) && Courteous(c, rs)
    ensures Trace(cs, rs, Replies(c, rs)) && cs[0] == c && cs[|rs|] == Run(c, rs)
    decreases |rs|
  {
    if rs == [] {
      cs := [c];
    } else {
      StepKeepsValid(c, rs[0]);
      var (c1, a) := Step(c, rs[0]);
      var rest := RunTrace(c1, rs[1..]);
      cs := [c] + rest;
      TraceFirst(c, rs, rest, a, Replies(c1, rs[1..]));
    }
  }

  lemma TraceFirst(c: Clock, rs: seq<Request>, rest: seq<Clock>, a: seq<Answer>, more: seq<seq<Answer>>)
    requires rs != [] && Trace(rest, rs[1..], more)
    requires Valid(c) && Polite(c, rs[0]) && c.free != [] && Step(c, rs[0]) == (rest[0], a)
    ensures Trace([c] + rest, rs, [a] + more)
  {
    forall i: nat | i < |rs|
      ensures TraceAt([c] + rest, rs, [a] + more, i)
    {
      if i > 0 { assert TraceAt(rest, rs[1..], more, i - 1); }
    }
  }

  /** Some answer of the run goes to `tid`. */
  ghost predicate InReplies(a: seq<seq<Answer>>, tid: nat) {
    exists i: nat :: i < |a| && Answers(a[i], tid)
  }

  lemma InRepliesFirst(a: seq<Answer>, rest: seq<seq<Answer>>, tid: nat)
    ensures InReplies([a] + rest, tid) <==> Answers(a, tid) || InReplies(rest, tid)
  {
    var all := [a] + rest;
    if Answers(a, tid) { assert Answers(all[0], tid); }
    if i: nat :| i < |rest| && Answers(rest[i], tid) { assert Answers(all[i + 1], tid); }
    if i: nat :| i < |all| && Answers(all[i], tid) {
      if i > 0 { assert Answers(rest[i - 1], tid); }
    }
  }

  lemma {:induction false} AnsweredInReplies(c: Clock, rs: seq<Request>, tid: nat)
    requires Valid(c) && Courteous(c, rs)
    ensures AnsweredIn(c, rs, tid) <==> InReplies(Replies(c, rs), tid)
    decreases |rs|
  {
    if rs != [] {
      StepKeepsValid(c, rs[0]);
      var (c1, a) := Step(c, rs[0]);
      AnsweredInReplies(c1, rs[1..], tid);
      InRepliesFirst(a, Replies(c1, rs[1..]), tid);
    }
  }

  lemma TidsApart(c: Clock, i: nat, j: nat)
    requires Valid(c) && i < j < |c.blocked|
    ensures c.blocked[i].tid != c.blocked[j].tid
  {
    DifferentAt(Tids(c.blocked), ENTRIES, i, j);
  }

  lemma NotSender(c: Clock, r: Request, p: nat)
    requires Polite(c, r) && p < |c.blocked|
    ensures r.sender != c.blocked[p].tid
  {
    assert Tids(c.blocked)[p] == c.blocked[p].tid;
  }

  // ----- A due sleeper is not overtaken -----

  /** New sleepers line up behind everybody who is due. */
  lemma LandsBehind(c: Clock, p: nat, d: int)
    requires Valid(c) && p < |c.blocked| && c.blocked[p].deadline < c.ticks <= d
    ensures Position(c.blocked, d) > p
  {
    forall i: nat | i <= p
      ensures c.blocked[i].deadline <= c.blocked[p].deadline
    {
      if i < p { assert Before(c.blocked[i], c.blocked[p]); }
    }
  }

  lemma BlockKeepsDue(c: Clock, sender: nat, d: int, p: nat)
    requires Valid(c) && c.free != [] && p < |c.blocked| && c.blocked[p].deadline < c.ticks <= d
    ensures Block(c, sender, d).blocked[p] == c.blocked[p]
  {
    LandsBehind(c, p, d);
  }

  lemma NotAnswered(a: Answer, b: Answer, tid: nat)
    requires a.to != tid && b.to != tid
    ensures !Answers([a], tid) && !Answers([a, b], tid)
  {
  }

  lemma DueTick(c: Clock, r: Request, p: nat)
    requires Valid(c) && Polite(c, r) && p < |c.blocked| && c.blocked[p].deadline < c.ticks
    ensures var (c', a) := OnTick(c, r.sender, r.msg);
      && c'.ticks == c.ticks + 1
      && if p > 0 then p - 1 < |c'.blocked| && c'.blocked[p - 1] == c.blocked[p] && !Answers(a, c.blocked[p].tid)
         else Answers(a, c.blocked[0].tid)
  {
    NotSender(c, r, p);
    TickForm(c, r.sender, r.msg);
    var a := OnTick(c, r.sender, r.msg).1;
    if p > 0 {
      TidsApart(c, 0, p);
      assert Before(c.blocked[0], c.blocked[p]);
      NotAnswered(a[0], a[1], c.blocked[p].tid);
    } else {
      assert a[1].to == c.blocked[0].tid;
    }
  }

  lemma DueOther(c: Clock, r: Request, p: nat)
    requires Valid(c) && Polite(c, r) && c.free != [] && p < |c.blocked| && c.blocked[p].deadline < c.ticks
    requires r.msg.kind != Tick
    ensures var (c', a) := Step(c, r);
      p < |c'.blocked| && c'.blocked[p] == c.blocked[p] && c'.ticks == c.ticks && !Answers(a, c.blocked[p].tid)
  {
    NotSender(c, r, p);
    match r.msg.kind
    case Delay =>
      if r.msg.time > 0 {
        var d := Deadline(c.ticks, r.msg.time);
        if d > 0 && d >= c.ticks { BlockKeepsDue(c, r.sender, d, p); }
      }
    case DelayUntil =>
      if r.msg.time > 0 && r.msg.time >= c.ticks { BlockKeepsDue(c, r.sender, r.msg.time, p); }
    case _ =>
  }

  /** One request: a due sleeper moves up one place on a tick and stays otherwise. */
  lemma DueStep(c: Clock, r: Request, p: nat)
    requires Valid(c) && Polite(c, r) && p < |c.blocked| && c.blocked[p].deadline < c.ticks
    ensures c.free != []
    ensures var (c', a) := Step(c, r);
      if r.msg.kind != Tick then
        p < |c'.blocked| && c'.blocked[p] == c.blocked[p] && c'.ticks == c.ticks && !Answers(a, c.blocked[p].tid)
      else
        && c'.ticks == c.ticks + 1
        && if p > 0 then p - 1 < |c'.blocked| && c'.blocked[p - 1] == c.blocked[p] && !Answers(a, c.blocked[p].tid)
           else Answers(a, c.blocked[0].tid)
  {
    FreeEntry(c, r.sender);
    if r.msg.kind == Tick { DueTick(c, r, p); } else { DueOther(c, r, p); }
  }

  /** Until as many ticks have come as sleepers are before it, a due sleeper only moves up
      and gets no answer, whatever else is requested. */
  lemma {:induction false} DueMovesUp(c: Clock, rs: seq<Request>, p: nat)
    requires Valid(c) && Courteous(c, rs) && p < |c.blocked| && c.blocked[p].deadline < c.ticks
    requires Ticks(rs) <= p
    ensures var c' := Run(c, rs);
      && p - Ticks(rs) < |c'.blocked| && c'.blocked[p - Ticks(rs)] == c.blocked[p]
      && c'.ticks == c.ticks + Ticks(rs)
      && !AnsweredIn(c, rs, c.blocked[p].tid)
    decreases |rs|
  {
    if rs != [] {
      StepKeepsValid(c, rs[0]);
      DueStep(c, rs[0], p);
      var c1 := Step(c, rs[0]).0;
      DueMovesUp(c1, rs[1..], if rs[0].msg.kind == Tick then p - 1 else p);
    }
  }

  /** A due sleeper at position p is released on exactly the (p+1)-th following tick, so
      within 64 ticks, for any interleaving of requests, and is told the time. */
  lemma DueReleased(c: Clock, rs: seq<Request>, last: Request, p: nat)
    requires Valid(c) && Courteous(c, rs) && p < |c.blocked| && c.blocked[p].deadline < c.ticks
    requires Ticks(rs) == p && last.msg.kind == Tick && Polite(Run(c, rs), last)
    ensures p < 64 && !AnsweredIn(c, rs, c.blocked[p].tid)
    ensures Run(c, rs).free != [] && c.ticks + p + 1 < TWO32
    ensures Step(Run(c, rs), last).1 ==
            [Answer(last.sender, last.msg), Answer(c.blocked[p].tid, Msg(Tick, ToInt(c.ticks + p + 1)))]
  {
    DueMovesUp(c, rs, p);
    DueStep(Run(c, rs), last, 0);
  }

  // ----- No early wake -----

  /** One request, one sleeper: either it is answered, by a tick that takes the counter past
      its deadline, or it still sleeps. */
  lemma SleeperStep(c: Clock, r: Request, x: Sleeper)
    requires Valid(c) && Polite(c, r) && x in c.blocked
    ensures c.free != []
    ensures var (c', a) := Step(c, r);
      && c'.ticks == c.ticks + (if r.msg.kind == Tick then 1 else 0)
      && (Answers(a, x.tid) ==> r.msg.kind == Tick && c'.ticks > x.deadline)
      && (!Answers(a, x.tid) ==> x in c'.blocked)
  {
    FreeEntry(c, r.sender);
    var p :| 0 <= p < |c.blocked| && c.blocked[p] == x;
    if r.msg.kind == Tick { SleeperTick(c, r, p); } else { SleeperOther(c, r, p); }
  }

  lemma SleeperTick(c: Clock, r: Request, p: nat)
    requires Valid(c) && Polite(c, r) && p < |c.blocked|
    ensures var (c', a) := OnTick(c, r.sender, r.msg);
      && c'.ticks == c.ticks + 1
      && (Answers(a, c.blocked[p].tid) ==> c'.ticks > c.blocked[p].deadline)
      && (!Answers(a, c.blocked[p].tid) ==> c.blocked[p] in c'.blocked)
  {
    NotSender(c, r, p);
    TickForm(c, r.sender, r.msg);
    var (c', a) := OnTick(c, r.sender, r.msg);
    if c.ticks + 1 <= c.blocked[0].deadline {
      NotAnswered(a[0], a[0], c.blocked[p].tid);
    } else if p > 0 {
      TidsApart(c, 0, p);
      NotAnswered(a[0], a[1], c.blocked[p].tid);
      assert c'.blocked[p - 1] == c.blocked[p];
    } else {
      assert a[1].to == c.blocked[0].tid;
    }
  }

  lemma SleeperOther(c: Clock, r: Request, p: nat)
    requires Valid(c) && Polite(c, r) && c.free != [] && p < |c.blocked| && r.msg.kind != Tick
    ensures var (c', a) := Step(c, r);
      c'.ticks == c.ticks && !Answers(a, c.blocked[p].tid) && c.blocked[p] in c'.blocked
  {
    NotSender(c, r, p);
    assert SleeperOk(c, c.blocked[0]);
    StillThere(c, r, p);
  }

  lemma StillThere(c: Clock, r: Request, p: nat)
    requires c.ticks < TWO32 && Int(r.msg.time) && c.free != [] && p < |c.blocked| && r.msg.kind != Tick
    requires Int(c.blocked[0].deadline)
    ensures c.blocked[p] in Step(c, r).0.blocked
  {
    var d := if r.msg.kind == Delay then Deadline(c.ticks, r.msg.time) else r.msg.time;
    BlockKeepsOthers(c, r.sender, d, p);
  }

  lemma BlockKeepsOthers(c: Clock, sender: nat, d: int, p: nat)
    requires c.free != [] && p < |c.blocked|
    ensures c.blocked[p] in Block(c, sender, d).blocked
  {
    var k := Position(c.blocked, d);
    assert Block(c, sender, d).blocked[if p < k then p else p + 1] == c.blocked[p];
  }

  /** Whatever the run, when a sleeper is answered the counter has passed its deadline: it
      was at least that many ticks away when the run began. */
  lemma {:induction false} NoEarlyAnswer(c: Clock, rs: seq<Request>, x: Sleeper)
    requires Valid(c) && Courteous(c, rs) && x in c.blocked && AnsweredIn(c, rs, x.tid)
    ensures c.ticks + Ticks(rs) > x.deadline
    decreases |rs|
  {
    StepKeepsValid(c, rs[0]);
    SleeperStep(c, rs[0], x);
    var (c1, a) := Step(c, rs[0]);
    if !Answers(a, x.tid) {
      NoEarlyAnswer(c1, rs[1..], x);
    }
  }

  /** The sleeper that an accepted Delay becomes. */
  lemma DelaySleeps(c: Clock, r: Request)
    requires Valid(c) && Polite(c, r) && r.msg.kind == Delay
    requires r.msg.time > 0 && c.ticks + r.msg.time < TWO31
    ensures c.free != [] && Step(c, r).1 == [] && Step(c, r).0.ticks == c.ticks
    ensures Sleeper(c.ticks + r.msg.time, r.sender, c.free[0], c.arrivals) in Step(c, r).0.blocked
  {
    DelayOutcome(c, r);
    var d := c.ticks + r.msg.time;
    var k, x := Position(c.blocked, d), Sleeper(d, r.sender, c.free[0], c.arrivals);
    InsertIndex(c.blocked, k, x, k);
  }

  /** A Delay of n > 0 that is accepted is answered only after n + 1 further ticks or more,
      over every run that follows, however long. */
  lemma NoEarlyWake(c: Clock, rs: seq<Request>)
    requires Valid(c) && rs != [] && Courteous(c, rs)
    requires rs[0].msg.kind == Delay && rs[0].msg.time > 0 && c.ticks + rs[0].msg.time < TWO31
    requires AnsweredIn(c, rs, rs[0].sender)
    ensures Ticks(rs) >= rs[0].msg.time + 1
  {
    var r := rs[0];
    StepKeepsValid(c, r);
    DelaySleeps(c, r);
    NoEarlyAnswer(Step(c, r).0, rs[1..], Sleeper(c.ticks + r.msg.time, r.sender, c.free[0], c.arrivals));
  }

  /** A DelayUntil is answered only once the counter has passed its time, however long the
      run that follows. */
  lemma NoEarlyWakeUntil(c: Clock, rs: seq<Request>)
    requires Valid(c) && rs != [] && Courteous(c, rs)
    requires rs[0].msg.kind == DelayUntil && rs[0].msg.time > 0 && AnsweredIn(c, rs, rs[0].sender)
    ensures c.ticks + Ticks(rs) > rs[0].msg.time
  {
    var r, d := rs[0], rs[0].msg.time;
    StepKeepsValid(c, r);
    if d >= c.ticks {
      var x := Sleeper(d, r.sender, c.free[0], c.arrivals);
      assert Step(c, r) == (Block(c, r.sender, d), []);
      InsertIndex(c.blocked, Position(c.blocked, d), x, Position(c.blocked, d));
      NoEarlyAnswer(Step(c, r).0, rs[1..], x);
    }
  }

  // ----- Every sleeper is woken in time -----

  /** A due sleeper at position p is answered once p + 1 ticks have come. */
  lemma {:induction false} DueAnswered(c: Clock, rs: seq<Request>, p: nat)
    requires Valid(c) && Courteous(c, rs) && p < |c.blocked| && c.blocked[p].deadline < c.ticks
    requires Ticks(rs) > p
    ensures AnsweredIn(c, rs, c.blocked[p].tid)
    decreases |rs|
  {
    StepKeepsValid(c, rs[0]);
    DueStep(c, rs[0], p);
    var (c1, a) := Step(c, rs[0]);
    if rs[0].msg.kind != Tick {
      DueAnswered(c1, rs[1..], p);
    } else if p > 0 {
      DueAnswered(c1, rs[1..], p - 1);
    }
  }

  /** The tick that takes the counter past a deadline releases somebody. */
  lemma PassingReleases(c: Clock, r: Request, x: Sleeper)
    requires Valid(c) && Polite(c, r) && r.msg.kind == Tick && x in c.blocked && x.deadline == c.ticks
    ensures c.free != [] && |Step(c, r).0.blocked| < ENTRIES
  {
    FreeEntry(c, r.sender);
    var p :| 0 <= p < |c.blocked| && c.blocked[p] == x;
    if p > 0 { assert Before(c.blocked[0], c.blocked[p]); }
  }

  /** Whatever else is requested, a sleeper is answered at most 63 ticks after the tick
      that takes the counter past its deadline. */
  lemma {:induction false} WokenInTime(c: Clock, rs: seq<Request>, x: Sleeper)
    requires Valid(c) && Courteous(c, rs) && x in c.blocked && c.ticks <= x.deadline
    requires Ticks(rs) >= x.deadline + 1 - c.ticks + 63
    ensures AnsweredIn(c, rs, x.tid)
    decreases |rs|
  {
    var r := rs[0];
    StepKeepsValid(c, r);
    SleeperStep(c, r, x);
    var (c1, a) := Step(c, r);
    if !Answers(a, x.tid) {
      if c1.ticks <= x.deadline {
        WokenInTime(c1, rs[1..], x);
      } else {
        PassingReleases(c, r, x);
        var p: nat :| p < |c1.blocked| && c1.blocked[p] == x;
        DueAnswered(c1, rs[1..], p);
      }
    }
  }

  /** An accepted Delay of n is answered within n + 64 ticks. */
  lemma DelayEnds(c: Clock, rs: seq<Request>)
    requires Valid(c) && rs != [] && Courteous(c, rs)
    requires rs[0].msg.kind == Delay && rs[0].msg.time > 0 && c.ticks + rs[0].msg.time < TWO31
    requires Ticks(rs) >= rs[0].msg.time + 64
    ensures AnsweredIn(c, rs, rs[0].sender)
  {
    var r := rs[0];
    StepKeepsValid(c, r);
    DelaySleeps(c, r);
    WokenInTime(Step(c, r).0, rs[1..], Sleeper(c.ticks + r.msg.time, r.sender, c.free[0], c.arrivals));
  }

  /** An accepted DelayUntil is answered at most 63 ticks after the tick that takes the
      counter past its time. */
  lemma DelayUntilEnds(c: Clock, rs: seq<Request>)
    requires Valid(c) && rs != [] && Courteous(c, rs)
    requires rs[0].msg.kind == DelayUntil && rs[0].msg.time > 0 && c.ticks <= rs[0].msg.time
    requires Ticks(rs) >= rs[0].msg.time + 1 - c.ticks + 63
    ensures AnsweredIn(c, rs, rs[0].sender)
  {
    var r := rs[0];
    StepKeepsValid(c, r);
    var x := Sleeper(r.msg.time, r.sender, c.free[0], c.arrivals);
    DelayUntilOutcome(c, r, x);
    WokenInTime(Step(c, r).0, rs[1..], x);
  }

  // ----- The counter, and who is answered -----

  lemma StepTicks(c: Clock, r: Request)
    requires Valid(c) && Polite(c, r) && c.free != []
    ensures Step(c, r).0.ticks == if r.msg.kind == Tick then (c.ticks + 1) % TWO32 else c.ticks
  {
  }

  lemma Wraps(ticks: nat, k: nat)
    requires ticks < TWO32
    ensures ((ticks + 1) % TWO32 + k) % TWO32 == (ticks + 1 + k) % TWO32
  {
    if ticks + 1 == TWO32 {
      assert (TWO32 + k) % TWO32 == k % TWO32;
    }
  }

  /** The counter is the number of ticks, modulo 2^32. */
  lemma {:induction false} CounterCountsTicks(c: Clock, rs: seq<Request>)
    requires Valid(c) && Courteous(c, rs)
    ensures Run(c, rs).ticks == (c.ticks + Ticks(rs)) % TWO32
    decreases |rs|
  {
    if rs != [] {
      StepKeepsValid(c, rs[0]);
      StepTicks(c, rs[0]);
      Wraps(c.ticks, Ticks(rs[1..]));
      CounterCountsTicks(Step(c, rs[0]).0, rs[1..]);
    }
  }

  /** A task that asks for the time is told the number of ticks so far. */
  lemma TimeTells(rs: seq<Request>, r: Request)
    requires Valid(Start()) && Courteous(Start(), rs)
    requires r.msg.kind == Time && Polite(Run(Start(), rs), r)
    ensures Run(Start(), rs).free != []
    ensures Step(Run(Start(), rs), r).1 == [Answer(r.sender, Msg(Time, ToInt(Ticks(rs) % TWO32)))]
  {
    CounterCountsTicks(Start(), rs);
    FreeEntry(Run(Start(), rs), r.sender);
  }

  function Recipients(a: seq<Answer>): (s: seq<nat>)
    ensures |s| == |a| && forall i: nat :: i < |a| ==> s[i] == a[i].to
  {
    if a == [] then [] else [a[0].to] + Recipients(a[1..])
  }

  /** How many answers of the run go to `tid`. */
  ghost function AnswerCount(c: Clock, rs: seq<Request>, tid: nat): nat
    requires Valid(c) && Courteous(c, rs)
    decreases |rs|
  {
    if rs == [] then 0
    else
      StepKeepsValid(c, rs[0]);
      Occ(Recipients(Step(c, rs[0]).1), tid) + AnswerCount(Step(c, rs[0]).0, rs[1..], tid)
  }

  /** How many requests of the run come from `tid` and are of a kind that is served. */
  function RequestCount(rs: seq<Request>, tid: nat): nat {
    if rs == [] then 0
    else (if rs[0].sender == tid && rs[0].msg.kind != Error then 1 else 0) + RequestCount(rs[1..], tid)
  }

  lemma OneAnswer(a: Answer, tid: nat)
    ensures Occ(Recipients([a]), tid) == if a.to == tid then 1 else 0
  {
    assert Recipients([a]) == [a.to];
  }

  lemma TickConserves(c: Clock, sender: nat, msg: Msg, tid: nat)
    requires c.blocked != [] ==> Int(c.blocked[0].deadline)
    ensures var (c', a) := OnTick(c, sender, msg);
      Occ(Recipients(a), tid) + Occ(Tids(c'.blocked), tid) == Occ(Tids(c.blocked), tid) + if sender == tid then 1 else 0
  {
    var (c', a) := OnTick(c, sender, msg);
    OneAnswer(Answer(sender, msg), tid);
    if FrontDue(c, (c.ticks + 1) % TWO32) {
      var x := c.blocked[0];
      assert Recipients(a) == [sender] + [x.tid];
      OccConcat([sender], [x.tid], tid);
      assert Tids(c.blocked) == [x.tid] + Tids(c.blocked[1..]);
      OccConcat([x.tid], Tids(c.blocked[1..]), tid);
    }
  }

  lemma DelayConserves(c: Clock, sender: nat, d: int, tid: nat)
    requires c.ticks < TWO32 && Int(d) && c.free != []
    ensures var (c', a) := OnDelayUntil(c, sender, d);
      Occ(Recipients(a), tid) + Occ(Tids(c'.blocked), tid) == Occ(Tids(c.blocked), tid) + if sender == tid then 1 else 0
  {
    OneAnswer(Answer(sender, Msg(Error, 0)), tid);
    OneAnswer(Answer(sender, Msg(Tick, ToInt(c.ticks))), tid);
    InsertOcc(c.blocked, Position(c.blocked, d), Sleeper(d, sender, c.free[0], c.arrivals), tid);
  }

  lemma StepConserves(c: Clock, r: Request, tid: nat)
    requires Valid(c) && Polite(c, r) && c.free != []
    ensures var (c', a) := Step(c, r);
      Occ(Recipients(a), tid) + Occ(Tids(c'.blocked), tid) ==
      Occ(Tids(c.blocked), tid) + if r.sender == tid && r.msg.kind != Error then 1 else 0
  {
    match r.msg.kind
    case Tick => TickConserves(c, r.sender, r.msg, tid);
    case Time => OneAnswer(Answer(r.sender, Msg(Time, ToInt(c.ticks))), tid);
    case Delay =>
      if r.msg.time <= 0 {
        OneAnswer(Answer(r.sender, Msg(Error, 0)), tid);
      } else {
        DelayConserves(c, r.sender, Deadline(c.ticks, r.msg.time), tid);
      }
    case DelayUntil => DelayConserves(c, r.sender, r.msg.time, tid);
    case Error =>
  }

  /** Over every run, each request is answered exactly once or its sender still sleeps:
      no answer is lost, and nobody is answered twice. */
  lemma {:induction false} AnsweredOrAsleep(c: Clock, rs: seq<Request>, tid: nat)
    requires Valid(c) && Courteous(c, rs)
    ensures AnswerCount(c, rs, tid) + Occ(Tids(Run(c, rs).blocked), tid) ==
            RequestCount(rs, tid) + Occ(Tids(c.blocked), tid)
    decreases |rs|
  {
    if rs != [] {
      StepKeepsValid(c, rs[0]);
      StepConserves(c, rs[0], tid);
      AnsweredOrAsleep(Step(c, rs[0]).0, rs[1..], tid);
    }
  }

  lemma StartValid()
    ensures Valid(Start())
  {
    var all := seq(ENTRIES, i => i);
    IdentityDifferent(all, ENTRIES);
    assert Entries([]) + all == all;
    assert forall x: nat :: Occ(Tids([]), x) == 0;
  }

  lemma {:induction false} IdentityDifferent(s: seq<nat>, n: nat)
    requires |s| == n && forall i: nat :: i < n ==> s[i] == i
    ensures Different(s, n)
    decreases n
  {
    if n > 0 {
      IdentityDifferent(s[..n - 1], n - 1);
      assert s == s[..n - 1] + [n - 1];
      forall x: nat
        ensures Occ(s, x) <= if x < n then 1 else 0
      {
        var t := s[..n - 1];
        OccConcat(t, [n - 1], x);
        assert Occ(t, x) <= if x < n - 1 then 1 else 0;
      }
    }
  }
}
