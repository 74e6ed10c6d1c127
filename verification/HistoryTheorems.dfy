/** Consequences of the rendezvous rules: what a legal history guarantees about the
    order of events, for any history. */
module HistoryTheorems {

  import opened Bytes
  import opened Options
  import opened KernelTypes
  import opened KernelHistory

  // ----- A sender waits for its reply -----

  /** After position `i`, the message of `t` to `r` was taken, and later answered. */
  ghost predicate AnsweredAfter(h: History, i: nat, t: nat, r: nat, msg: seq<Byte>) {
    exists k: nat, j: nat :: i < k < j < Length(h) &&
      At(h, k) == Taken(t, r, msg) && At(h, j).Answered? && At(h, j).who == t
  }

  ghost predicate TakenAfter(h: History, i: nat, t: nat, r: nat, msg: seq<Byte>) {
    exists k: nat :: i < k < Length(h) && At(h, k) == Taken(t, r, msg)
  }

  lemma AnsweredLater(h: History, i: nat, t: nat, r: nat, msg: seq<Byte>)
    requires h.Then? && AnsweredAfter(h.past, i, t, r, msg)
    ensures AnsweredAfter(h, i, t, r, msg)
  {
    var k: nat, j: nat :| i < k < j < Length(h.past) &&
      At(h.past, k) == Taken(t, r, msg) && At(h.past, j).Answered? && At(h.past, j).who == t;
    assert At(h, k) == At(h.past, k) && At(h, j) == At(h.past, j);
  }

  lemma TakenLater(h: History, i: nat, t: nat, r: nat, msg: seq<Byte>)
    requires h.Then? && TakenAfter(h.past, i, t, r, msg)
    ensures TakenAfter(h, i, t, r, msg)
    ensures h.event.Answered? && h.event.who == t ==> AnsweredAfter(h, i, t, r, msg)
  {
    var k: nat :| i < k < Length(h.past) && At(h.past, k) == Taken(t, r, msg);
    assert At(h, k) == At(h.past, k);
    assert At(h, Length(h.past)) == h.event;
  }

  /** How far an accepted message has come, by its sender's stage. */
  lemma {:induction false} SendProgress(h: History, i: nat, t: nat, r: nat, msg: seq<Byte>)
    requires Legal(h) && i < Length(h) && At(h, i) == Accepted(t, r, msg)
    ensures AnsweredAfter(h, i, t, r, msg)
         || (StageOf(h, t).Held? && TakenAfter(h, i, t, r, msg))
         || (StageOf(h, t).Queued? && StageOf(h, t).to == r && StageOf(h, t).msg == msg)
         || StageOf(h, t) == Lost
  {
    if i < Length(h.past) {
      SendProgress(h.past, i, t, r, msg);
      if AnsweredAfter(h.past, i, t, r, msg) {
        AnsweredLater(h, i, t, r, msg);
      } else if StageOf(h.past, t).Held? && TakenAfter(h.past, i, t, r, msg) {
        TakenLater(h, i, t, r, msg);
      } else if h.event == Taken(t, r, msg) {
        assert At(h, Length(h.past)) == h.event;
      }
    }
  }

  /** An accepted sender is between two calls again only if its message was taken by its
      receiver and a Reply to it followed. */
  lemma AcceptedThenAnswered(h: History, i: nat, t: nat, r: nat, msg: seq<Byte>)
    requires Legal(h) && i < Length(h) && At(h, i) == Accepted(t, r, msg)
    requires StageOf(h, t).Idle? || StageOf(h, t).InCall?
    ensures AnsweredAfter(h, i, t, r, msg)
  {
    SendProgress(h, i, t, r, msg);
  }

  /** The first `n` events. */
  function Prefix(h: History, n: nat): (p: History)
    requires n <= Length(h)
    ensures Length(p) == n
  {
    if n == Length(h) then h else Prefix(h.past, n)
  }

  lemma {:induction false} PrefixAt(h: History, n: nat, i: nat)
    requires i < n <= Length(h)
    ensures At(Prefix(h, n), i) == At(h, i)
  {
    if n < Length(h) { PrefixAt(h.past, n, i); }
  }

  lemma {:induction false} PrefixLegal(h: History, n: nat)
    requires Legal(h) && n <= Length(h)
    ensures Legal(Prefix(h, n))
    ensures n < Length(h) ==> Allowed(Prefix(h, n), At(h, n))
  {
    if n < Length(h) {
      PrefixLegal(h.past, n);
    }
  }

  /** A task has at most one message outstanding: between two accepted sends of the same
      task there is a reply to the first. */
  lemma OneOutstandingSend(h: History, i: nat, j: nat)
    requires Legal(h) && i < j < Length(h) && At(h, i).Accepted? && At(h, j).Accepted?
    requires At(h, i).from == At(h, j).from
    ensures exists k: nat :: i < k < j && At(h, k).Answered? && At(h, k).who == At(h, i).from
  {
    var t, r, msg := At(h, i).from, At(h, i).to, At(h, i).msg;
    var p := Prefix(h, j);
    PrefixLegal(h, j);
    PrefixAt(h, j, i);
    AcceptedThenAnswered(p, i, t, r, msg);
    var k: nat, m: nat :| i < k < m < Length(p) &&
      At(p, k) == Taken(t, r, msg) && At(p, m).Answered? && At(p, m).who == t;
    PrefixAt(h, j, m);
  }

  // ----- A task sees its own call's result -----

  /** Position of the last call of `t`, or -1. */
  function LastCall(h: History, t: nat): (i: int)
    ensures -1 <= i < Length(h)
  {
    if h.Boot? then -1
    else if h.event.Called? && h.event.who == t then Length(h.past)
    else LastCall(h.past, t)
  }

  /** Position of the last event that ended a call of `t`, or -1. */
  function LastEnd(h: History, t: nat): (i: int)
    ensures -1 <= i < Length(h)
  {
    if h.Boot? then -1
    else if Ends(h.event, t).Some? then Length(h.past)
    else LastEnd(h.past, t)
  }

  /** Event `e`, after history `h`, is a proper outcome of `call` for task `t`. */
  predicate Fits(h: History, call: Call, e: Event, t: nat) {
    match e
    case Returned(w, v) => w == t && Immediate(h, t, call, v)
    case Answered(w, _, rep) => w == t && call.Send? && call.repLen == |rep|
    case Taken(_, to, msg) => to == t && call == Receive(|msg|)
    case Woken(w, source, _) => w == t && call == AwaitEvent(source)
    case _ => false
  }

  /** The last call of `t`, and the stage it must have reached. */
  ghost predicate CallMatches(h: History, t: nat) {
    var c, e, st := LastCall(h, t), LastEnd(h, t), StageOf(h, t);
    if st.Idle? then
      c == e == -1 || (0 <= c < e && At(h, c).Called? && Fits(Prefix(h, e), At(h, c).call, At(h, e), t))
    else
      && e < c && At(h, c).Called?
      && (st.InCall? ==> At(h, c).call == st.call)
      && (st.Queued? ==> At(h, c).call == Send(st.to, st.msg, st.repLen))
      && (st.Held? ==> At(h, c).call.Send? && At(h, c).call.repLen == st.repLen)
  }

  lemma {:induction false} CallMatchesAlways(h: History, t: nat)
    requires Legal(h)
    ensures CallMatches(h, t)
  {
    if h.Then? {
      CallMatchesAlways(h.past, t);
      assert At(h, Length(h.past)) == h.event;
      assert forall i: nat :: i < Length(h.past) ==> At(h, i) == At(h.past, i);
      assert Prefix(h, Length(h.past)) == h.past;
    }
  }

  lemma {:induction false} ResultIsLastEnd(h: History, t: nat)
    ensures if LastEnd(h, t) < 0 then ResultOf(h, t) == 0
            else Ends(At(h, LastEnd(h, t)), t) == Some(ResultOf(h, t))
  {
    if h.Then? { ResultIsLastEnd(h.past, t); }
  }

  /** Between two calls, what counts as the result of a task is the outcome of its own
      last call, which came after that call. */
  lemma OwnResult(h: History, t: nat)
    requires Legal(h) && StageOf(h, t) == Idle && LastCall(h, t) >= 0
    ensures LastCall(h, t) < LastEnd(h, t)
    ensures At(h, LastCall(h, t)).Called?
    ensures Fits(Prefix(h, LastEnd(h, t)), At(h, LastCall(h, t)).call, At(h, LastEnd(h, t)), t)
    ensures Ends(At(h, LastEnd(h, t)), t) == Some(ResultOf(h, t))
  {
    CallMatchesAlways(h, t);
    ResultIsLastEnd(h, t);
  }

  /** A task that was given a message or a reply by its last call has it in the buffer. */
  lemma {:induction false} BuffersOfLastEnd(h: History, t: nat)
    ensures var e := LastEnd(h, t);
      e >= 0 ==>
        && (At(h, e).Taken? ==> LastMail(h, t) == Some(Mail(At(h, e).from, At(h, e).msg)))
        && (At(h, e).Answered? ==> LastReply(h, t) == Some(At(h, e).rep))
  {
    if h.Then? { BuffersOfLastEnd(h.past, t); }
  }

  // ----- Only created tasks take part -----

  /** There are never more than 64 tasks, and a task that is in a call exists. */
  lemma {:induction false} OnlyTasksCall(h: History, t: nat)
    requires Legal(h)
    ensures TaskCount(h) <= 64 && (StageOf(h, t) != Idle ==> t < TaskCount(h))
  {
    if h.Then? { OnlyTasksCall(h.past, t); }
  }
}
