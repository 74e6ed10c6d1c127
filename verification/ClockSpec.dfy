/** The clock server of src/clock_server/clock_server.c as a step function on its state:
    the tick counter, the list of sleepers in waking order and the free entries. */
module ClockSpec {

  import opened Counting

  const ENTRIES: nat := 64
  const TWO31: nat := 0x8000_0000
  const TWO32: nat := 0x1_0000_0000

  datatype Kind = Tick | Time | Delay | DelayUntil | Error

  datatype Msg = Msg(kind: Kind, time: int)

  datatype Request = Request(sender: nat, msg: Msg)

  datatype Answer = Answer(to: nat, msg: Msg)

  /** A blocked client. `entry` is the list entry it occupies; `arrival` numbers the
      accepted requests. */
  datatype Sleeper = Sleeper(deadline: int, tid: nat, entry: nat, arrival: nat)

  datatype Clock = Clock(ticks: nat, blocked: seq<Sleeper>, free: seq<nat>, arrivals: nat)

  /** Conversion of a 32-bit unsigned number to int. */
  function ToInt(u: nat): int
    requires u < TWO32
  {
    if u < TWO31 then u else u - TWO32
  }

  /** Conversion of an int to 32 bits unsigned. */
  function ToUnsigned(i: int): nat
    requires Int(i)
  {
    if i >= 0 then i else i + TWO32
  }

  predicate Int(i: int) {
    -0x8000_0000 <= i < 0x8000_0000
  }

  // ----- Steps -----

  /** Number of leading sleepers whose deadline is not after `d`. */
  function Position(blocked: seq<Sleeper>, d: int): (k: nat)
    ensures k <= |blocked|
    ensures forall i: nat :: i < k ==> blocked[i].deadline <= d
    ensures k < |blocked| ==> blocked[k].deadline > d
  {
    if blocked == [] || blocked[0].deadline > d then 0 else 1 + Position(blocked[1..], d)
  }

  function InsertAt(blocked: seq<Sleeper>, k: nat, x: Sleeper): seq<Sleeper>
    requires k <= |blocked|
  {
    blocked[..k] + [x] + blocked[k..]
  }

  function Block(c: Clock, sender: nat, d: int): Clock
    requires c.free != []
  {
    var x := Sleeper(d, sender, c.free[0], c.arrivals);
    Clock(c.ticks, InsertAt(c.blocked, Position(c.blocked, d), x), c.free[1..], c.arrivals + 1)
  }

  /** Whether the front sleeper is released when the counter shows `ticks`. */
  predicate FrontDue(c: Clock, ticks: nat)
    requires c.blocked != [] ==> Int(c.blocked[0].deadline)
  {
    c.blocked != [] && ticks > ToUnsigned(c.blocked[0].deadline)
  }

  function OnTick(c: Clock, sender: nat, msg: Msg): (Clock, seq<Answer>)
    requires c.blocked != [] ==> Int(c.blocked[0].deadline)
  {
    var ticks := (c.ticks + 1) % TWO32;
    if FrontDue(c, ticks) then
      var x := c.blocked[0];
      (c.(ticks := ticks, blocked := c.blocked[1..], free := c.free + [x.entry]),
       [Answer(sender, msg), Answer(x.tid, Msg(Tick, ToInt(ticks)))])
    else (c.(ticks := ticks), [Answer(sender, msg)])
  }

  function OnDelayUntil(c: Clock, sender: nat, d: int): (Clock, seq<Answer>)
    requires c.ticks < TWO32 && Int(d) && c.free != []
  {
    if d <= 0 then (c, [Answer(sender, Msg(Error, 0))])
    else if ToUnsigned(d) < c.ticks then (c, [Answer(sender, Msg(Tick, ToInt(c.ticks)))])
    else (Block(c, sender, d), [])
  }

  /** The deadline of a delay: the sum is computed unsigned and stored in an int. */
  function Deadline(ticks: nat, n: int): (d: int)
    requires ticks < TWO32 && Int(n)
    ensures Int(d)
  {
    ToInt((ToUnsigned(n) + ticks) % TWO32)
  }

  function OnDelay(c: Clock, sender: nat, n: int): (Clock, seq<Answer>)
    requires c.ticks < TWO32 && Int(n) && c.free != []
  {
    if n <= 0 then (c, [Answer(sender, Msg(Error, 0))])
    else OnDelayUntil(c, sender, Deadline(c.ticks, n))
  }

  function Step(c: Clock, r: Request): (Clock, seq<Answer>)
    requires c.ticks < TWO32 && Int(r.msg.time)
    requires r.msg.kind == Delay || r.msg.kind == DelayUntil ==> c.free != []
    requires c.blocked != [] ==> Int(c.blocked[0].deadline)
  {
    match r.msg.kind
    case Tick => OnTick(c, r.sender, r.msg)
    case Time => (c, [Answer(r.sender, Msg(Time, ToInt(c.ticks)))])
    case Delay => OnDelay(c, r.sender, r.msg.time)
    case DelayUntil => OnDelayUntil(c, r.sender, r.msg.time)
    case Error => (c, [])
  }

  function Start(): Clock {
    Clock(0, [], seq(ENTRIES, i => i), 0)
  }

  // ----- The invariant -----

  /** Waking order: by deadline, and by arrival among equal deadlines. */
  predicate Before(x: Sleeper, y: Sleeper) {
    x.deadline < y.deadline || (x.deadline == y.deadline && x.arrival < y.arrival)
  }

  ghost predicate Sorted(b: seq<Sleeper>) {
    forall i: nat, j: nat :: i < j < |b| ==> Before(b[i], b[j])
  }

  function Entries(b: seq<Sleeper>): (s: seq<nat>)
    ensures |s| == |b| && forall i: nat :: i < |b| ==> s[i] == b[i].entry
  {
    if b == [] then [] else [b[0].entry] + Entries(b[1..])
  }

  function Tids(b: seq<Sleeper>): (s: seq<nat>)
    ensures |s| == |b| && forall i: nat :: i < |b| ==> s[i] == b[i].tid
  {
    if b == [] then [] else [b[0].tid] + Tids(b[1..])
  }

  ghost predicate SleeperOk(c: Clock, x: Sleeper) {
    1 <= x.deadline < TWO31 && x.arrival < c.arrivals
  }

  ghost predicate Valid(c: Clock) {
    && c.ticks < TWO32
    && |c.blocked| + |c.free| == ENTRIES && Different(Entries(c.blocked) + c.free, ENTRIES)
    && Different(Tids(c.blocked), ENTRIES)
    && Sorted(c.blocked)
    && (forall i: nat :: i < |c.blocked| ==> SleeperOk(c, c.blocked[i]))
    // once the counter has passed every int, each tick releases a sleeper
    && (c.ticks >= TWO31 && c.blocked != [] ==> |c.blocked| + (c.ticks - TWO31) <= ENTRIES)
  }

  /** A sender is running, so it cannot be asleep. The kernel guarantees it: a task has at
      most one message unanswered. */
  ghost predicate Polite(c: Clock, r: Request) {
    r.sender < ENTRIES && r.sender !in Tids(c.blocked) && Int(r.msg.time)
  }
}
