/** Whole runs of the I/O server and its notifiers. What was accepted, received, delivered,
    asked for and answered is read off the actions and the replies of a run. */
module IoTheorems {

  import opened Bytes
  import opened IoSpec

  // ----- Runs and what can be observed of them -----

  /** The states a system goes through, the actions between them, and the server's replies
      to every action. */
  datatype Trace = Trace(states: seq<System>, actions: seq<Action>, replies: seq<seq<Reply>>)

  predicate Sized(t: Trace) {
    |t.states| == |t.actions| + 1 && |t.replies| == |t.actions|
  }

  ghost predicate StepAt(t: Trace, i: nat)
    requires Sized(t) && i < |t.actions|
  {
    && Enabled(t.states[i], t.actions[i]) && t.states[i + 1] == Next(t.states[i], t.actions[i])
    && t.replies[i] == Replies(t.states[i], t.actions[i])
  }

  /** A run of the system from its start. */
  ghost predicate Run(t: Trace, com1: bool) {
    Sized(t) && t.states[0] == Start(com1) && forall i: nat :: i < |t.actions| ==> StepAt(t, i)
  }

  /** The bytes of the write requests, unless the server panicked at them. */
  function Accepted(t: Trace, n: nat): seq<Byte>
    requires Sized(t) && n <= |t.actions|
  {
    if n == 0 then [] else Accepted(t, n - 1) + Wrote(t.actions[n - 1], t.states[n].halted)
  }

  function Wrote(a: Action, halted: bool): seq<Byte> {
    if a.Write? && !halted then a.data else []
  }

  /** The bytes that came in from the UART. */
  function Received(t: Trace, n: nat): seq<Byte>
    requires Sized(t) && n <= |t.actions|
  {
    if n == 0 then [] else Received(t, n - 1) + CameIn(t.actions[n - 1], t.states[n].halted)
  }

  function CameIn(a: Action, halted: bool): seq<Byte> {
    if a.RxByte? && !halted then [a.b] else []
  }

  /** The bytes in the replies to clients. */
  function Delivered(t: Trace, n: nat): seq<Byte>
    requires Sized(t) && n <= |t.actions|
  {
    if n == 0 then [] else Delivered(t, n - 1) + ClientBytes(t.replies[n - 1])
  }

  function ClientBytes(r: seq<Reply>): seq<Byte> {
    if r == [] then [] else (if r[0].ToClient? then r[0].data else []) + ClientBytes(r[1..])
  }

  /** How often the transmit notifier took a token. */
  function Takes(t: Trace, n: nat): nat
    requires Sized(t) && n <= |t.actions|
  {
    if n == 0 then 0 else Takes(t, n - 1) + if t.actions[n - 1] == TakeToken then 1 else 0
  }

  /** How often the CTS notifier woke up and saw that the other end is clear to send. */
  function Clears(t: Trace, n: nat): nat
    requires Sized(t) && n <= |t.actions|
  {
    if n == 0 then 0 else Clears(t, n - 1) + if t.actions[n - 1] == ModemStatus(true) then 1 else 0
  }

  // ----- The way out -----

  /** The bytes in the transmit notifier's buffer that are not written yet. */
  function Unsent(s: System): seq<Byte> {
    match s.tx
    case Asking => []
    case Parked => []
    case _ => if s.tx.i <= |s.data| then s.data[s.tx.i..] else []
  }

  ghost predicate PipelineOk(s: System, accepted: seq<Byte>) {
    && accepted == s.uart + Unsent(s) + s.server.rbOut
    && (s.server.txReady <==> s.tx == Parked)
    && (s.server.txReady ==> s.server.rbOut == [])
    && (s.tx.Await? ==> s.tx.i <= |s.data|)
    && (s.tx.Fetch? || s.tx.Confirm? || s.tx.Emit? ==> s.tx.i < |s.data|)
    && |s.server.rbOut| <= 127 && |s.data| <= 31
  }

  /** Nothing on the way out changes. */
  predicate SameOutput(s: System, s': System) {
    && s'.uart == s.uart && s'.data == s.data && s'.tx == s.tx
    && s'.server.rbOut == s.server.rbOut && s'.server.txReady == s.server.txReady
  }

  lemma InputPipeline(s: System, a: Action, accepted: seq<Byte>)
    requires PipelineOk(s, accepted) && Enabled(s, a) && (a.Read? || a.RxByte? || a.ModemStatus?)
    ensures SameOutput(s, Next(s, a)) && PipelineOk(Next(s, a), accepted)
  {
  }

  /** Waiting for the UART or for a token moves no byte. */
  lemma WaitPipeline(s: System, a: Action, accepted: seq<Byte>)
    requires PipelineOk(s, accepted) && Enabled(s, a) && (a.UartReady? || a.TakeToken? || a.AnswerToken?)
    ensures PipelineOk(Next(s, a), accepted)
  {
    assert Unsent(Next(s, a)) == Unsent(s);
  }

  /** The first byte of the middle part moves to the left part. */
  lemma MoveByte(left: seq<Byte>, x: Byte, middle: seq<Byte>, right: seq<Byte>)
    ensures left + ([x] + middle) + right == left + [x] + middle + right
  {
    assert left + ([x] + middle) == left + [x] + middle;
  }

  lemma EmitPipeline(s: System, accepted: seq<Byte>)
    requires PipelineOk(s, accepted) && Enabled(s, EmitByte)
    ensures PipelineOk(Next(s, EmitByte), accepted)
  {
    var i := s.tx.i;
    var x, rest := s.data[i], s.data[i + 1..];
    var s' := s.(uart := s.uart + [x], tx := Await(i + 1));
    assert Next(s, EmitByte) == s' && Unsent(s') == rest;
    assert Unsent(s) == [x] + rest;
    MoveByte(s.uart, x, rest, s.server.rbOut);
  }

  lemma LoopEndPipeline(s: System, accepted: seq<Byte>)
    requires PipelineOk(s, accepted) && Enabled(s, LoopEnd)
    ensures PipelineOk(Next(s, LoopEnd), accepted)
  {
    assert Unsent(s) == [] && Unsent(Next(s, LoopEnd)) == [];
  }

  lemma WritePipeline(s: System, tid: nat, data: seq<Byte>, accepted: seq<Byte>)
    requires PipelineOk(s, accepted) && Enabled(s, Write(tid, data)) && |s.server.rbOut| + |data| <= 127
    ensures !Next(s, Write(tid, data)).halted && PipelineOk(Next(s, Write(tid, data)), accepted + data)
  {
    var s' := Next(s, Write(tid, data));
    if s.server.txReady {
      WriteWakesNotifier(s, tid, data);
      assert Unsent(s') == data;
    } else {
      assert s' == s.(server := s.server.(rbOut := s.server.rbOut + data));
      assert s.uart + Unsent(s) + s.server.rbOut + data == s.uart + Unsent(s) + (s.server.rbOut + data);
    }
  }

  /** The parked notifier gets all of a write at once. */
  lemma WriteWakesNotifier(s: System, tid: nat, data: seq<Byte>)
    requires s.server.rbOut == [] && Enabled(s, Write(tid, data)) && s.server.txReady
    ensures Respond(s, Write(tid, data)) ==
      Served(s.server.(rbOut := [], txReady := false), [ToTx(data), ToClient(tid, [])])
    ensures Next(s, Write(tid, data)) == s.(server := s.server.(txReady := false), data := data, tx := Await(0))
  {
    var out := s.server.rbOut + data;
    assert out == data;
    assert out[..|out|] == out && out[|out|..] == [];
  }

  lemma ServePipeline(s: System, accepted: seq<Byte>)
    requires PipelineOk(s, accepted) && Enabled(s, ServeTx)
    ensures PipelineOk(Next(s, ServeTx), accepted)
  {
    var out := s.server.rbOut;
    var k := Least(MAX_DATA, |out|);
    assert Unsent(s) == [];
    if k > 0 {
      var s' := s.(server := s.server.(rbOut := out[k..]), data := out[..k], tx := Await(0));
      assert Next(s, ServeTx) == s';
      assert Unsent(s') == out[..k];
      SplitRing(s.uart, out, k);
    } else {
      assert Next(s, ServeTx) == s.(server := s.server.(txReady := true), tx := Parked);
    }
  }

  /** What leaves the ring goes before what stays. */
  lemma SplitRing(left: seq<Byte>, out: seq<Byte>, k: nat)
    requires k <= |out|
    ensures left + [] + out == left + out[..k] + out[k..]
  {
    assert out == out[..k] + out[k..];
    assert left + (out[..k] + out[k..]) == left + out[..k] + out[k..];
  }

  lemma NextPipeline(s: System, a: Action, accepted: seq<Byte>)
    requires PipelineOk(s, accepted) && Enabled(s, a)
    ensures PipelineOk(Next(s, a), accepted + Wrote(a, Next(s, a).halted))
  {
    assert accepted + [] == accepted;
    match a
    case Write(tid, data) => if |s.server.rbOut| + |data| <= 127 { WritePipeline(s, tid, data, accepted); }
    case ServeTx => ServePipeline(s, accepted);
    case EmitByte => EmitPipeline(s, accepted);
    case LoopEnd => LoopEndPipeline(s, accepted);
    case UartReady => WaitPipeline(s, a, accepted);
    case TakeToken => WaitPipeline(s, a, accepted);
    case AnswerToken => WaitPipeline(s, a, accepted);
    case _ => InputPipeline(s, a, accepted);
  }

  // ----- The way in -----

  ghost predicate InputOk(s: System, received: seq<Byte>, delivered: seq<Byte>) {
    && (s.server.clientReady ==> s.server.rbIn == [])
    && received == delivered + s.server.rbIn && |s.server.rbIn| <= 127
  }

  /** Up to two replies, one after the other. */
  lemma ClientBytesOf(a: Reply, b: Reply)
    ensures ClientBytes([a]) == if a.ToClient? then a.data else []
    ensures ClientBytes([a, b]) == ClientBytes([a]) + ClientBytes([b])
    ensures ClientBytes([b]) == if b.ToClient? then b.data else []
  {
    assert [a][1..] == [] && [b][1..] == [] && [a, b][1..] == [b];
  }

  lemma ReadInput(s: System, tid: nat, len: nat, received: seq<Byte>, delivered: seq<Byte>)
    requires InputOk(s, received, delivered) && Enabled(s, Read(tid, len))
    ensures InputOk(Next(s, Read(tid, len)), received, delivered + ClientBytes(Replies(s, Read(tid, len))))
  {
    var rb, a := s.server.rbIn, Read(tid, len);
    if rb != [] {
      var k := Least(len, |rb|);
      ClientBytesOf(ToClient(tid, rb[..k]), ToRx);
      assert Replies(s, a) == [ToClient(tid, rb[..k])];
      assert Next(s, a) == s.(server := s.server.(rbIn := rb[k..]));
      SplitInput(delivered, rb, k);
    } else {
      assert ClientBytes(Replies(s, a)) == [];
    }
  }

  lemma SplitInput(left: seq<Byte>, rb: seq<Byte>, k: nat)
    requires k <= |rb|
    ensures left + rb == left + rb[..k] + rb[k..]
  {
    assert rb == rb[..k] + rb[k..];
    assert left + (rb[..k] + rb[k..]) == left + rb[..k] + rb[k..];
  }

  lemma JoinInput(left: seq<Byte>, rb: seq<Byte>, b: Byte)
    ensures left + rb + [b] == left + [] + (rb + [b])
  {
  }

  /** A byte comes in and the ring is not full. */
  lemma RxForm(s: System, b: Byte)
    requires Enabled(s, RxByte(b)) && |s.server.rbIn| < 127
    ensures var buf := s.server.rbIn + [b];
      if s.server.clientReady then
        && Replies(s, RxByte(b)) == [ToClient(s.server.clientTid, buf[..1]), ToRx]
        && Next(s, RxByte(b)) == s.(server := s.server.(rbIn := buf[1..], clientReady := false))
      else Replies(s, RxByte(b)) == [ToRx] && Next(s, RxByte(b)) == s.(server := s.server.(rbIn := buf))
  {
  }

  lemma RxInput(s: System, b: Byte, received: seq<Byte>, delivered: seq<Byte>)
    requires InputOk(s, received, delivered) && Enabled(s, RxByte(b)) && |s.server.rbIn| < 127
    ensures !Next(s, RxByte(b)).halted
    ensures InputOk(Next(s, RxByte(b)), received + [b], delivered + ClientBytes(Replies(s, RxByte(b))))
  {
    RxForm(s, b);
    if s.server.clientReady {
      assert s.server.rbIn + [b] == [b] && [b][..1] == [b] && [b][1..] == [];
      ClientBytesOf(ToClient(s.server.clientTid, [b]), ToRx);
    } else {
      ClientBytesOf(ToRx, ToRx);
      JoinInput(delivered, s.server.rbIn, b);
    }
  }

  /** Whatever does not read or receive leaves the way in alone. */
  lemma OtherInput(s: System, a: Action, received: seq<Byte>, delivered: seq<Byte>)
    requires InputOk(s, received, delivered) && Enabled(s, a) && !a.Read? && !a.RxByte?
    ensures ClientBytes(Replies(s, a)) == [] && InputOk(Next(s, a), received, delivered)
  {
    NoClientBytes(s, a);
  }

  lemma NoClientBytes(s: System, a: Action)
    requires Enabled(s, a) && !a.Read? && !a.RxByte?
    ensures ClientBytes(Replies(s, a)) == []
  {
    var r := Replies(s, a);
    FewReplies(s, a);
    if |r| > 0 { ClientBytesOf(r[0], if |r| > 1 then r[1] else r[0]); }
  }

  /** No action has more than two replies. */
  lemma FewReplies(s: System, a: Action)
    ensures var r := Replies(s, a);
      |r| <= 2 && (|r| == 1 ==> r == [r[0]]) && (|r| == 2 ==> r == [r[0], r[1]])
    ensures a.Write? || a.ServeTx? || (!a.Read? && !a.RxByte?) ==>
      forall x :: x in Replies(s, a) && x.ToClient? ==> x.data == []
  {
  }

  lemma NextInput(s: System, a: Action, received: seq<Byte>, delivered: seq<Byte>)
    requires InputOk(s, received, delivered) && Enabled(s, a)
    ensures InputOk(Next(s, a), received + CameIn(a, Next(s, a).halted), delivered + ClientBytes(Replies(s, a)))
  {
    assert received + [] == received && delivered + [] == delivered;
    match a
    case Read(tid, len) => ReadInput(s, tid, len, received, delivered);
    case RxByte(b) => if |s.server.rbIn| < 127 { RxInput(s, b, received, delivered); }
    case _ => OtherInput(s, a, received, delivered);
  }

  // ----- Tokens -----

  ghost predicate TokensOk(s: System, takes: nat, clears: nat) {
    && (s.com1 ==>
          && takes + (if s.cts == Offering then 1 else 0) == 1 + clears
          && takes == |s.uart| + (if s.tx.Confirm? || s.tx.Emit? then 1 else 0)
          && (s.cts == Taken <==> s.tx.Confirm?))
    && (!s.com1 ==> !s.tx.Fetch? && !s.tx.Confirm?)
  }

  /** The server moves no token. */
  lemma ServerTokens(s: System, a: Action, takes: nat, clears: nat)
    requires TokensOk(s, takes, clears) && Enabled(s, a) && (s.server.txReady <==> s.tx == Parked)
    requires a.Write? || a.Read? || a.RxByte? || a.ServeTx?
    ensures TokensOk(Next(s, a), takes, clears)
  {
    var s' := Next(s, a);
    assert s'.com1 == s.com1 && s'.cts == s.cts && s'.uart == s.uart;
    assert s'.tx == s.tx || ((s.tx == Asking || s.tx == Parked) && (s'.tx == Parked || s'.tx == Await(0)));
  }

  lemma NotifierTokens(s: System, a: Action, takes: nat, clears: nat)
    requires TokensOk(s, takes, clears) && Enabled(s, a) && !(a.Write? || a.Read? || a.RxByte? || a.ServeTx?)
    ensures TokensOk(Next(s, a), takes + (if a == TakeToken then 1 else 0), clears + if a == ModemStatus(true) then 1 else 0)
  {
  }

  lemma NextTokens(s: System, a: Action, takes: nat, clears: nat)
    requires TokensOk(s, takes, clears) && Enabled(s, a) && (s.server.txReady <==> s.tx == Parked)
    ensures TokensOk(Next(s, a), takes + (if a == TakeToken then 1 else 0), clears + if a == ModemStatus(true) then 1 else 0)
  {
    if a.Write? || a.Read? || a.RxByte? || a.ServeTx? {
      ServerTokens(s, a, takes, clears);
    } else {
      NotifierTokens(s, a, takes, clears);
    }
  }

  // ----- The invariant over runs -----

  lemma PipelineStep(t: Trace, i: nat)
    requires Sized(t) && i < |t.actions| && StepAt(t, i) && PipelineOk(t.states[i], Accepted(t, i))
    ensures PipelineOk(t.states[i + 1], Accepted(t, i + 1))
  {
    NextPipeline(t.states[i], t.actions[i], Accepted(t, i));
  }

  lemma InputStep(t: Trace, i: nat)
    requires Sized(t) && i < |t.actions| && StepAt(t, i) && InputOk(t.states[i], Received(t, i), Delivered(t, i))
    ensures InputOk(t.states[i + 1], Received(t, i + 1), Delivered(t, i + 1))
  {
    NextInput(t.states[i], t.actions[i], Received(t, i), Delivered(t, i));
  }

  lemma {:induction false} PipelineRun(t: Trace, com1: bool, n: nat)
    requires Run(t, com1) && n <= |t.actions|
    ensures PipelineOk(t.states[n], Accepted(t, n))
  {
    if n > 0 {
      PipelineRun(t, com1, n - 1);
      PipelineStep(t, n - 1);
    }
  }

  lemma {:induction false} InputRun(t: Trace, com1: bool, n: nat)
    requires Run(t, com1) && n <= |t.actions|
    ensures InputOk(t.states[n], Received(t, n), Delivered(t, n))
  {
    if n > 0 {
      InputRun(t, com1, n - 1);
      InputStep(t, n - 1);
    }
  }

  lemma {:induction false} TokensRun(t: Trace, com1: bool, n: nat)
    requires Run(t, com1) && n <= |t.actions|
    ensures TokensOk(t.states[n], Takes(t, n), Clears(t, n)) && t.states[n].com1 == com1
  {
    if n > 0 {
      TokensRun(t, com1, n - 1);
      PipelineRun(t, com1, n - 1);
      assert StepAt(t, n - 1);
      NextTokens(t.states[n - 1], t.actions[n - 1], Takes(t, n - 1), Clears(t, n - 1));
    }
  }

  /** Nothing is lost, duplicated or reordered on the way out: at every moment the bytes of
      all writes so far are the bytes written to the UART, then those in the notifier's
      buffer, then those in the output ring. */
  lemma OutputConserved(t: Trace, com1: bool, n: nat)
    requires Run(t, com1) && n <= |t.actions|
    ensures Accepted(t, n) == t.states[n].uart + Unsent(t.states[n]) + t.states[n].server.rbOut
  {
    PipelineRun(t, com1, n);
  }

  /** No byte is stuck: the notifier is parked only when all bytes are written, a reader
      waits only when all bytes are delivered, and what came in is what was delivered
      followed by the input ring. */
  lemma NoStuckBytes(t: Trace, com1: bool, n: nat)
    requires Run(t, com1) && n <= |t.actions|
    ensures var s := t.states[n];
      && (s.tx == Parked ==> s.uart == Accepted(t, n))
      && (s.server.clientReady ==> Received(t, n) == Delivered(t, n))
      && Received(t, n) == Delivered(t, n) + s.server.rbIn
  {
    PipelineRun(t, com1, n);
    InputRun(t, com1, n);
  }

  // ----- Progress -----

  /** An action of the transmit notifier, or of the server on its behalf. */
  predicate Transmits(a: Action) {
    a.ServeTx? || a.UartReady? || a.TakeToken? || a.AnswerToken? || a.EmitByte? || a.LoopEnd?
  }

  /** How much there is left to do for the bytes that were accepted. */
  function Work(s: System): nat {
    5 * |Unsent(s)| + 8 * |s.server.rbOut| +
    match s.tx
    case Await(_) => 3
    case Fetch(_) => 2
    case Confirm(_) => 1
    case Emit(_) => 0
    case Asking => 1
    case Parked => 0
  }

  lemma ServeTxWork(s: System, accepted: seq<Byte>)
    requires PipelineOk(s, accepted) && Enabled(s, ServeTx)
    ensures Work(Next(s, ServeTx)) < Work(s)
  {
    var k := Least(MAX_DATA, |s.server.rbOut|);
    if k > 0 {
      assert Next(s, ServeTx) ==
        s.(server := s.server.(rbOut := s.server.rbOut[k..]), data := s.server.rbOut[..k], tx := Await(0));
    }
  }

  lemma TransmitWork(s: System, a: Action, accepted: seq<Byte>)
    requires PipelineOk(s, accepted) && Enabled(s, a) && Transmits(a)
    ensures Work(Next(s, a)) < Work(s)
  {
    if a == ServeTx { ServeTxWork(s, accepted); }
  }

  /** The transmit side can go on, unless it waits for the other end to become clear to
      send. */
  ghost predicate CanGoOn(s: System) {
    (exists a: Action :: Transmits(a) && Enabled(s, a)) || (s.com1 && s.tx.Fetch? && s.cts == Waiting)
  }

  lemma NobodyStuck(s: System, accepted: seq<Byte>, takes: nat, clears: nat)
    requires PipelineOk(s, accepted) && TokensOk(s, takes, clears) && !s.halted && s.uart != accepted
    ensures CanGoOn(s)
  {
    match s.tx
    case Await(i) =>
      assert Transmits(UartReady) && Transmits(LoopEnd);
      assert Enabled(s, UartReady) || Enabled(s, LoopEnd);
    case Fetch(_) => if s.cts == Offering { assert Transmits(TakeToken) && Enabled(s, TakeToken); }
    case Confirm(_) => assert Transmits(AnswerToken) && Enabled(s, AnswerToken);
    case Emit(_) => assert Transmits(EmitByte) && Enabled(s, EmitByte);
    case Asking => assert Transmits(ServeTx) && Enabled(s, ServeTx);
    case Parked =>
  }

  /** Every accepted byte gets out: in every reachable state that is not halted, either all
      of them are written or the transmit side can go on, and each of its actions leaves
      less to do. */
  lemma OutputProgress(t: Trace, com1: bool, n: nat, a: Action)
    requires Run(t, com1) && n <= |t.actions| && !t.states[n].halted
    ensures t.states[n].uart == Accepted(t, n) || CanGoOn(t.states[n])
    ensures Enabled(t.states[n], a) && Transmits(a) ==> Work(Next(t.states[n], a)) < Work(t.states[n])
  {
    PipelineRun(t, com1, n);
    TokensRun(t, com1, n);
    var s := t.states[n];
    if s.uart != Accepted(t, n) { NobodyStuck(s, Accepted(t, n), Takes(t, n), Clears(t, n)); }
    if Enabled(s, a) && Transmits(a) { TransmitWork(s, a, Accepted(t, n)); }
  }

  /** At action `i` more bytes are under way than a ring holds: accepted and not yet with the
      notifier, or received and not yet delivered. */
  predicate OverflowAt(t: Trace, i: nat)
    requires Sized(t) && i < |t.actions|
  {
    var s, a := t.states[i], t.actions[i];
    || (a.Write? && |Accepted(t, i)| + |a.data| > |s.uart| + |Unsent(s)| + 127)
    || (a.RxByte? && |Received(t, i)| >= |Delivered(t, i)| + 127)
  }

  lemma OverflowHalts(s: System, a: Action, accepted: seq<Byte>, received: seq<Byte>, delivered: seq<Byte>)
    requires PipelineOk(s, accepted) && InputOk(s, received, delivered) && Enabled(s, a)
    ensures Next(s, a).halted <==>
      || (a.Write? && |accepted| + |a.data| > |s.uart| + |Unsent(s)| + 127)
      || (a.RxByte? && |received| >= |delivered| + 127)
  {
    assert |accepted| == |s.uart| + |Unsent(s)| + |s.server.rbOut|;
    assert |received| == |delivered| + |s.server.rbIn|;
  }

  /** A run comes to a halt exactly when, counted from outside, more bytes are under way
      than a ring holds; as long as they are not, it never does. */
  lemma PanicsIff(t: Trace, com1: bool, n: nat)
    requires Run(t, com1) && n <= |t.actions|
    ensures t.states[n].halted <==> n > 0 && OverflowAt(t, n - 1)
  {
    if n > 0 {
      PipelineRun(t, com1, n - 1);
      InputRun(t, com1, n - 1);
      assert StepAt(t, n - 1);
      OverflowHalts(t.states[n - 1], t.actions[n - 1], Accepted(t, n - 1), Received(t, n - 1), Delivered(t, n - 1));
    }
  }

  // ----- Who is answered -----

  /** Part of `all` behind the part `done`, at most `k` elements. */
  function NextOf(all: seq<Byte>, done: seq<Byte>, k: nat): seq<Byte>
    requires |done| <= |all|
  {
    all[|done|..][..Least(k, |all| - |done|)]
  }

  lemma NextOfRest(all: seq<Byte>, done: seq<Byte>, rest: seq<Byte>, k: nat)
    requires all == done + rest
    ensures NextOf(all, done, k) == rest[..Least(k, |rest|)]
  {
    assert all[|done|..] == rest;
  }

  /** A Read is answered to the task that reads, with the next bytes that were received and
      not delivered, as many as it asked for; if there are none, this task waits. */
  lemma ReadAnswered(t: Trace, com1: bool, i: nat)
    requires Run(t, com1) && i < |t.actions| && t.actions[i].Read?
    ensures var a, got, given := t.actions[i], Received(t, i), Delivered(t, i);
      && given <= got
      && if got == given then
           t.replies[i] == [] && t.states[i + 1].server.clientReady && t.states[i + 1].server.clientTid == a.tid
         else t.replies[i] == [ToClient(a.tid, NextOf(got, given, a.len))]
  {
    InputRun(t, com1, i);
    assert StepAt(t, i);
    NextOfRest(Received(t, i), Delivered(t, i), t.states[i].server.rbIn, t.actions[i].len);
  }

  /** A Write that does not make the server panic is answered once, to the task that writes;
      if the transmit notifier is parked it gets the bytes first. */
  lemma WriteAnswered(t: Trace, com1: bool, i: nat)
    requires Run(t, com1) && i < |t.actions| && t.actions[i].Write? && !t.states[i + 1].halted
    ensures var a := t.actions[i];
      t.replies[i] == (if t.states[i].tx == Parked then [ToTx(a.data)] else []) + [ToClient(a.tid, [])]
  {
    PipelineRun(t, com1, i);
    assert StepAt(t, i);
    var a := t.actions[i];
    if t.states[i].server.txReady { WriteWakesNotifier(t.states[i], a.tid, a.data); }
  }

  /** A received byte is answered to the receive notifier; if a reader waits, that one gets
      the byte first. */
  lemma RxAnswered(t: Trace, com1: bool, i: nat)
    requires Run(t, com1) && i < |t.actions| && t.actions[i].RxByte? && !t.states[i + 1].halted
    ensures var s, b := t.states[i].server, t.actions[i].b;
      t.replies[i] == (if s.clientReady then [ToClient(s.clientTid, [b])] else []) + [ToRx]
  {
    InputRun(t, com1, i);
    assert StepAt(t, i);
    var s, b := t.states[i].server, t.actions[i].b;
    if s.clientReady { assert (s.rbIn + [b])[..1] == [b]; }
  }

  /** The transmit notifier that asks for more gets the next bytes that were accepted and not
      written, at most 31; it is left without an answer exactly when all are written. No
      other action of a notifier is answered. */
  lemma TxAnswered(t: Trace, com1: bool, i: nat)
    requires Run(t, com1) && i < |t.actions|
    ensures var a, put, done := t.actions[i], Accepted(t, i), t.states[i].uart;
      && (a == ServeTx ==> done <= put && t.replies[i] == if put == done then [] else [ToTx(NextOf(put, done, 31))])
      && (a.UartReady? || a.TakeToken? || a.AnswerToken? || a.EmitByte? || a.LoopEnd? || a.ModemStatus? ==>
            t.replies[i] == [])
  {
    PipelineRun(t, com1, i);
    assert StepAt(t, i);
    var s := t.states[i];
    if t.actions[i] == ServeTx {
      assert Accepted(t, i) == s.uart + s.server.rbOut;
      NextOfRest(Accepted(t, i), s.uart, s.server.rbOut, 31);
    }
  }

  // ----- Readers and writers, counted -----

  /** How many of the replies go to client `tid`. */
  function AnswersTo(r: seq<Reply>, tid: nat): nat {
    if r == [] then 0 else (if r[0].ToClient? && r[0].tid == tid then 1 else 0) + AnswersTo(r[1..], tid)
  }

  /** All answers of the first `n` actions to client `tid`. */
  function Answered(t: Trace, n: nat, tid: nat): nat
    requires Sized(t) && n <= |t.actions|
  {
    if n == 0 then 0 else Answered(t, n - 1, tid) + AnswersTo(t.replies[n - 1], tid)
  }

  predicate AsksFor(a: Action, tid: nat) {
    (a.Read? && a.tid == tid) || (a.Write? && a.tid == tid)
  }

  /** All requests of client `tid`, except one that made the server panic. */
  function Requested(t: Trace, n: nat, tid: nat): nat
    requires Sized(t) && n <= |t.actions|
  {
    if n == 0 then 0
    else Requested(t, n - 1, tid) + if AsksFor(t.actions[n - 1], tid) && !t.states[n].halted then 1 else 0
  }

  predicate WaitsToRead(s: System, tid: nat) {
    s.server.clientReady && s.server.clientTid == tid
  }

  /** How often client `tid` was waiting to read when another Read came. */
  function Overtaken(t: Trace, n: nat, tid: nat): nat
    requires Sized(t) && n <= |t.actions|
  {
    if n == 0 then 0
    else Overtaken(t, n - 1, tid) + if t.actions[n - 1].Read? && WaitsToRead(t.states[n - 1], tid) then 1 else 0
  }

  lemma AnswersToOf(a: Reply, b: Reply, tid: nat)
    ensures AnswersTo([a], tid) == if a.ToClient? && a.tid == tid then 1 else 0
    ensures AnswersTo([a, b], tid) == AnswersTo([a], tid) + AnswersTo([b], tid)
    ensures AnswersTo([b], tid) == if b.ToClient? && b.tid == tid then 1 else 0
  {
    assert [a][1..] == [] && [b][1..] == [] && [a, b][1..] == [b];
  }

  lemma NextAnswers(s: System, a: Action, tid: nat)
    requires Enabled(s, a) && (s.server.clientReady ==> s.server.rbIn == [])
    ensures AnswersTo(Replies(s, a), tid) + (if WaitsToRead(Next(s, a), tid) then 1 else 0)
            + (if a.Read? && WaitsToRead(s, tid) then 1 else 0)
         == (if WaitsToRead(s, tid) then 1 else 0) + if AsksFor(a, tid) && !Next(s, a).halted then 1 else 0
  {
    var r := Replies(s, a);
    FewReplies(s, a);
    if |r| > 0 { AnswersToOf(r[0], if |r| > 1 then r[1] else r[0], tid); }
  }

  /** Over every run, each request of a client is answered exactly once, or it is the Read of
      the client that waits, or a Read of it that was overtaken by another Read. */
  lemma {:induction false} AnsweredOrWaiting(t: Trace, com1: bool, n: nat, tid: nat)
    requires Run(t, com1) && n <= |t.actions|
    ensures Answered(t, n, tid) + Overtaken(t, n, tid) + (if WaitsToRead(t.states[n], tid) then 1 else 0)
         == Requested(t, n, tid)
  {
    if n > 0 {
      AnsweredOrWaiting(t, com1, n - 1, tid);
      InputRun(t, com1, n - 1);
      assert StepAt(t, n - 1);
      NextAnswers(t.states[n - 1], t.actions[n - 1], tid);
    }
  }

  /** Two readers in a row on an empty input ring: the first is forgotten, the second gets
      the byte, and nobody waits any more. */
  lemma SecondReaderOvertakes(com1: bool, first: nat, second: nat, b: Byte)
    ensures var s0 := Start(com1); var s1 := Next(s0, Read(first, 1)); var s2 := Next(s1, Read(second, 1));
      && Replies(s0, Read(first, 1)) == [] && Replies(s1, Read(second, 1)) == []
      && Replies(s2, RxByte(b)) == [ToClient(second, [b]), ToRx] && !Next(s2, RxByte(b)).server.clientReady
  {
    assert ([] + [b])[..1] == [b];
  }

  // ----- Flow control -----

  /** COM1 flow control: a byte needs a token, at most one token is under way, and every
      token but the first stands for a modem-status change that saw CTS. */
  lemma FlowControl(t: Trace, n: nat)
    requires Run(t, true) && n <= |t.actions|
    ensures |t.states[n].uart| <= Takes(t, n) <= 1 + Clears(t, n) <= Takes(t, n) + 1
    ensures |t.states[n].uart| <= 1 + Clears(t, n)
  {
    TokensRun(t, true, n);
  }

  /** A modem-status change that did not see CTS changes nothing. */
  lemma NotClear(s: System)
    requires Enabled(s, ModemStatus(false))
    ensures Next(s, ModemStatus(false)) == s && Replies(s, ModemStatus(false)) == []
  {
  }

  /** One action of a run, in terms of the server's response. */
  lemma ServerStep(t: Trace, com1: bool, i: nat)
    requires Run(t, com1) && i < |t.actions|
    ensures match Respond(t.states[i], t.actions[i])
            case Panic => t.states[i + 1].halted && t.replies[i] == []
            case Served(server, replies) =>
              !t.states[i + 1].halted && t.states[i + 1].server == server && t.replies[i] == replies
  {
    assert StepAt(t, i);
  }

  lemma RunsOn(t: Trace, com1: bool, i: nat)
    requires Run(t, com1) && i < |t.actions|
    ensures !t.states[i].halted
  {
    assert StepAt(t, i);
  }
}
