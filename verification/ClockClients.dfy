/** The kernel makes the clock's clients polite: the clock server as one task of the
    kernel, whose requests are the messages it takes in a legal history, and whose replies
    are the answers it owes. */
module ClockClients {

  import opened Bytes
  import opened Counting
  import K = KernelTypes
  import H = KernelHistory
  import T = HistoryTheorems
  import R = KernelRuns
  import opened ClockSpec
  import opened ClockTheorems

  /** The clock server at one moment: its state, and the answers its last step decided on
      that it has not given yet. */
  datatype Duty = Duty(clock: Clock, owed: seq<Answer>)

  /** The clock server `r` after a history: one step for every message it takes, one answer
      given with every reply it makes. `decode` reads the message structure from its bytes. */
  ghost function DutyAfter(h: K.History, r: nat, decode: seq<Byte> -> Msg): Duty {
    if h.Boot? then Duty(Start(), [])
    else
      var d := DutyAfter(h.past, r, decode);
      match h.event
      case Taken(f, to, m) =>
        var req := Request(f, decode(m));
        if to == r && Valid(d.clock) && Polite(d.clock, req) then
          StepKeepsValid(d.clock, req);
          var (c, a) := Step(d.clock, req);
          Duty(c, d.owed + a)
        else d
      case Answered(_, server, _) => if server == r && d.owed != [] then d.(owed := d.owed[1..]) else d
      case _ => d
  }

  /** How often `x` sleeps or is owed an answer. */
  ghost function Holds(d: Duty, x: nat): nat {
    Occ(Recipients(d.owed), x) + Occ(Tids(d.clock.blocked), x)
  }

  /** The clock server replies only what it owes, in that order; and nobody else replies to
      a task whose message it holds. (The kernel would let any task do so.) */
  ghost predicate Considerate(h: K.History, r: nat, decode: seq<Byte> -> Msg) {
    h.Boot? ||
    (Considerate(h.past, r, decode) &&
     (h.event.Answered? ==>
        var d := DutyAfter(h.past, r, decode);
        if h.event.server == r then d.owed != [] && d.owed[0].to == h.event.who
        else Holds(d, h.event.who) == 0))
  }

  ghost predicate Decodes(decode: seq<Byte> -> Msg) {
    forall m :: Int(decode(m).time)
  }

  /** A task whose message the clock server holds waits for its reply, and is held once. */
  ghost predicate Waits(h: K.History, d: Duty, x: nat) {
    Holds(d, x) <= 1 && (Holds(d, x) > 0 ==> H.StageOf(h, x).Held?)
  }

  lemma SenderPolite(h: K.History, d: Duty, r: nat, decode: seq<Byte> -> Msg, e: K.Event)
    requires H.Legal(K.Then(h, e)) && Decodes(decode) && e.Taken? && e.to == r && Waits(h, d, e.from)
    ensures Holds(d, e.from) == 0 && Polite(d.clock, Request(e.from, decode(e.msg)))
  {
    T.OnlyTasksCall(h, e.from);
    OccIn(Tids(d.clock.blocked), e.from);
  }

  lemma {:induction false} RecipientsConcat(a: seq<Answer>, b: seq<Answer>)
    ensures Recipients(a + b) == Recipients(a) + Recipients(b)
  {
    if a == [] {
      assert a + b == b;
    } else {
      assert (a + b)[1..] == a[1..] + b;
      RecipientsConcat(a[1..], b);
    }
  }

  /** Taking a request: its sender, and nobody else, is held once more. */
  lemma TakeHolds(d: Duty, req: Request, x: nat)
    requires Valid(d.clock) && Polite(d.clock, req) && d.clock.free != []
    ensures var (c, a) := Step(d.clock, req);
      Holds(Duty(c, d.owed + a), x) == Holds(d, x) + if req.sender == x && req.msg.kind != Error then 1 else 0
  {
    var a := Step(d.clock, req).1;
    StepConserves(d.clock, req, x);
    RecipientsConcat(d.owed, a);
    OccConcat(Recipients(d.owed), Recipients(a), x);
  }

  /** Giving an answer: its recipient, and nobody else, is held once less. */
  lemma GiveHolds(d: Duty, x: nat)
    requires d.owed != []
    ensures Holds(d.(owed := d.owed[1..]), x) + (if x == d.owed[0].to then 1 else 0) == Holds(d, x)
  {
    assert Recipients(d.owed) == [d.owed[0].to] + Recipients(d.owed[1..]);
    OccConcat([d.owed[0].to], Recipients(d.owed[1..]), x);
  }

  lemma EventWaits(h: K.History, e: K.Event, r: nat, decode: seq<Byte> -> Msg, x: nat)
    requires H.Legal(K.Then(h, e)) && Considerate(K.Then(h, e), r, decode) && Decodes(decode)
    requires Valid(DutyAfter(h, r, decode).clock) && Waits(h, DutyAfter(h, r, decode), x)
    requires e.Taken? && e.to == r ==> Waits(h, DutyAfter(h, r, decode), e.from)
    ensures Waits(K.Then(h, e), DutyAfter(K.Then(h, e), r, decode), x)
  {
    var d := DutyAfter(h, r, decode);
    if e.Taken? && e.to == r {
      var req := Request(e.from, decode(e.msg));
      SenderPolite(h, d, r, decode, e);
      FreeEntry(d.clock, e.from);
      TakeHolds(d, req, x);
    } else if e.Answered? && e.server == r {
      GiveHolds(d, x);
    }
  }

  lemma EventValid(h: K.History, e: K.Event, r: nat, decode: seq<Byte> -> Msg)
    requires Valid(DutyAfter(h, r, decode).clock)
    ensures Valid(DutyAfter(K.Then(h, e), r, decode).clock)
  {
    var d := DutyAfter(h, r, decode);
    if e.Taken? && e.to == r && Polite(d.clock, Request(e.from, decode(e.msg))) {
      StepKeepsValid(d.clock, Request(e.from, decode(e.msg)));
    }
  }

  /** Every sleeper, and everybody who is owed an answer, is a task whose message was taken
      and not answered; nobody is held twice. */
  lemma {:induction false} SleepersHeld(h: K.History, r: nat, decode: seq<Byte> -> Msg, x: nat)
    requires H.Legal(h) && Considerate(h, r, decode) && Decodes(decode)
    ensures Valid(DutyAfter(h, r, decode).clock) && Waits(h, DutyAfter(h, r, decode), x)
  {
    if h.Boot? {
      StartValid();
    } else {
      SleepersHeld(h.past, r, decode, x);
      if h.event.Taken? { SleepersHeld(h.past, r, decode, h.event.from); }
      EventValid(h.past, h.event, r, decode);
      EventWaits(h.past, h.event, r, decode, x);
    }
  }

  /** In every run of the kernel, whenever the clock server takes a message its sender is
      not asleep, and the free list has an entry for it. */
  lemma ClientsArePolite(run: seq<K.Kernel>, i: nat, n: nat, r: nat, decode: seq<Byte> -> Msg)
    requires R.Run(run) && i < |run| && n < K.Length(run[i].log) && Decodes(decode)
    requires K.At(run[i].log, n).Taken? && K.At(run[i].log, n).to == r
    requires Considerate(T.Prefix(run[i].log, n), r, decode)
    ensures var e, c := K.At(run[i].log, n), DutyAfter(T.Prefix(run[i].log, n), r, decode).clock;
      Valid(c) && Polite(c, Request(e.from, decode(e.msg))) && c.free != []
  {
    R.RunInv(run, i);
    var log := run[i].log;
    var h, e := T.Prefix(log, n), K.At(log, n);
    T.PrefixLegal(log, n);
    SleepersHeld(h, r, decode, e.from);
    SenderPolite(h, DutyAfter(h, r, decode), r, decode, e);
    FreeEntry(DutyAfter(h, r, decode).clock, e.from);
  }
}
