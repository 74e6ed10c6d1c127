/** The message loop of the I/O server, on its two ring buffers. */
module IoServers {

  import opened Bytes
  import R = RingBuffers
  import opened IoSpec
  import opened IoTheorems

  const BUFFER_SIZE: nat := 128

  /** Takes up to `n` bytes out of a ring, oldest first. */
  method Drain(rb: R.RingBuffer, n: nat) returns (data: seq<Byte>)
    requires rb.Valid()
    modifies rb
    ensures rb.Valid()
    ensures var k := Least(n, |old(rb.contents)|);
      data == old(rb.contents)[..k] && rb.contents == old(rb.contents)[k..]
    ensures rb.writeIndex == old(rb.writeIndex)
  {
    ghost var was := rb.contents;
    data := [];
    var empty := rb.Empty();
    while |data| < n && !empty
      invariant rb.Valid() && |data| <= n && data + rb.contents == was && empty == (rb.contents == [])
      invariant rb.writeIndex == old(rb.writeIndex)
      decreases n - |data|
    {
      ghost var rest := rb.contents;
      var slot := rb.Get();
      MoveOne(data, rest);
      data := data + [rb.buf[slot.value]];
      empty := rb.Empty();
    }
    assert data == was[..|data|] && rb.contents == was[|data|..];
  }

  /** Moving the first element of `t` behind `s`. */
  lemma MoveOne(s: seq<Byte>, t: seq<Byte>)
    requires t != []
    ensures s + [t[0]] + t[1..] == s + t
  {
    assert t == [t[0]] + t[1..];
  }

  class IoServer {
    const rbIn: R.RingBuffer
    const rbOut: R.RingBuffer
    var txReady: bool
    var clientReady: bool
    var clientTid: nat
    ghost const Repr: set<object>

    /** The two rings share no object. */
    ghost predicate Fixed() {
      && Repr == {this, rbIn, rbOut, rbIn.buf, rbOut.buf} && rbIn != rbOut && rbIn.buf != rbOut.buf
      && rbIn.size == BUFFER_SIZE && rbOut.size == BUFFER_SIZE
    }

    ghost predicate Valid()
      reads this, Repr
    {
      Fixed() && rbIn.Valid() && rbOut.Valid()
    }

    ghost function Abs(): Server
      requires Valid()
      reads this, Repr
    {
      Server(rbIn.contents, rbOut.contents, txReady, clientReady, clientTid)
    }

    constructor ()
      ensures Valid() && fresh(Repr) && Abs() == Server([], [], false, false, 0)
    {
      var inBuf := new Byte[BUFFER_SIZE](i => 0);
      var outBuf := new Byte[BUFFER_SIZE](i => 0);
      var a := new R.RingBuffer(inBuf);
      var b := new R.RingBuffer(outBuf);
      rbIn, rbOut := a, b;
      txReady, clientReady, clientTid := false, false, 0;
      Repr := {this, a, b, inBuf, outBuf};
    }

    /** CLIENT_READ */
    method Read(tid: nat, len: nat) returns (replies: seq<Reply>)
      requires Valid()
      modifies Repr
      ensures Valid() && OnRead(old(Abs()), tid, len) == Served(Abs(), replies)
    {
      var empty := rbIn.Empty();
      if empty {
        clientReady := true;
        clientTid := tid;
        return [];
      }
      var data := Drain(rbIn, len);
      return [ToClient(tid, data)];
    }

    /** CLIENT_WRITE */
    method Write(tid: nat, data: seq<Byte>) returns (panic: bool, replies: seq<Reply>)
      requires Valid()
      modifies Repr
      ensures Valid() && OnWrite(old(Abs()), tid, data) == if panic then Panic else Served(Abs(), replies)
      ensures panic ==> replies == []
    {
      replies := [];
      var ok := rbOut.PutN(data);
      if !ok {
        return true, [];
      }
      if txReady {
        var chunk := HandOut();
        replies := [ToTx(chunk)];
        txReady := false;
      }
      panic, replies := false, replies + [ToClient(tid, [])];
    }

    /** Up to 31 bytes of the output ring, for the transmit notifier. */
    method HandOut() returns (chunk: seq<Byte>)
      requires Valid()
      modifies rbOut
      ensures Valid()
      ensures var out := old(Abs()).rbOut; var k := Least(MAX_DATA, |out|);
        chunk == out[..k] && Abs() == old(Abs()).(rbOut := out[k..])
    {
      chunk := Drain(rbOut, MAX_DATA);
    }

    /** NOTIF_RX */
    method Rx(b: Byte) returns (panic: bool, replies: seq<Reply>)
      requires Valid()
      modifies Repr
      ensures Valid() && OnRx(old(Abs()), b) == if panic then Panic else Served(Abs(), replies)
      ensures panic ==> replies == []
    {
      replies := [];
      var ok := rbIn.Put(b);
      if !ok {
        return true, [];
      }
      if clientReady {
        var first := TakeIn();
        replies := [ToClient(clientTid, [first])];
        clientReady := false;
      }
      panic, replies := false, replies + [ToRx];
    }

    /** The oldest byte of the input ring. */
    method TakeIn() returns (b: Byte)
      requires Valid() && rbIn.contents != []
      modifies rbIn
      ensures Valid()
      ensures [b] == old(Abs()).rbIn[..1] && Abs() == old(Abs()).(rbIn := old(Abs()).rbIn[1..])
    {
      ghost var buf := rbIn.contents;
      var slot := rbIn.Get();
      b := rbIn.buf[slot.value];
      assert buf[..1] == [buf[0]];
    }

    /** NOTIF_TX */
    method Tx() returns (replies: seq<Reply>)
      requires Valid()
      modifies Repr
      ensures Valid() && OnTx(old(Abs())) == Served(Abs(), replies)
    {
      var chunk := HandOut();
      if |chunk| > 0 {
        return [ToTx(chunk)];
      }
      txReady := true;
      return [];
    }

    /** The handler of one action: the server's new state and its replies are those of the
        whole system. Actions of the notifiers do not concern the server. */
    method Handle(a: Action, ghost sys: System) returns (panic: bool, replies: seq<Reply>)
      requires Valid() && sys.server == Abs()
      modifies Repr
      ensures Valid() && replies == Replies(sys, a)
      ensures Respond(sys, a) == if panic then Panic else Served(Abs(), replies)
    {
      panic, replies := false, [];
      match a
      case Write(tid, data) => panic, replies := Write(tid, data);
      case Read(tid, len) => replies := Read(tid, len);
      case RxByte(b) => panic, replies := Rx(b);
      case ServeTx => replies := Tx();
      case _ =>
    }

    /** The heap server is where the system is after `i` actions, or the system halted there. */
    ghost predicate InStep(t: Trace, i: nat)
      reads this, Repr
    {
      Valid() && i < |t.states| && (!t.states[i].halted ==> t.states[i].server == Abs())
    }

    method Serve(ghost t: Trace, a: Action, i: nat, ghost com1: bool) returns (panic: bool, replies: seq<Reply>)
      requires Run(t, com1) && i < |t.actions| && a == t.actions[i] && InStep(t, i)
      modifies Repr
      ensures InStep(t, i + 1) && panic == t.states[i + 1].halted && Made(t, i, replies)
    {
      RunsOn(t, com1, i);
      ServerStep(t, com1, i);
      panic, replies := Handle(a, t.states[i]);
    }

    /** The server loop among the actions of its notifiers, clients and the hardware, until
        it panics or they end: it keeps step with the whole system, and makes its replies. */
    method ServeAll(actions: seq<Action>, ghost t: Trace, ghost com1: bool)
      returns (panic: bool, replies: seq<seq<Reply>>)
      requires Run(t, com1) && t.actions == actions && InStep(t, 0)
      modifies Repr
      ensures InStep(t, |actions|) && panic == t.states[|actions|].halted && |replies| == |actions|
      ensures forall k: nat :: k < |actions| ==> Made(t, k, replies[k])
    {
      panic, replies := false, [];
      var i := 0;
      while i < |actions| && !panic
        invariant i <= |actions| && InStep(t, i) && panic == t.states[i].halted
        invariant |replies| == i && forall k: nat :: k < i ==> Made(t, k, replies[k])
      {
        var r;
        panic, r := Serve(t, actions[i], i, com1);
        replies := replies + [r];
        i := i + 1;
      }
      if i < |actions| { RunsOn(t, com1, i); }
    }

    /** These are the replies to action `k` of a run. */
    static predicate Made(t: Trace, k: nat, replies: seq<Reply>) {
      k < |t.replies| && t.replies[k] == replies
    }
  }
}
