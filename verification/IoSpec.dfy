/** The I/O server of src/io_server/io_server.c together with its transmit and CTS
    notifiers, as one step system: the server handles one message at a time, the notifiers
    take their steps in between, in any order. */
module IoSpec {

  import opened Bytes

  const MAX_DATA: nat := 31
  const CAPACITY: nat := 127

  datatype Server = Server(rbIn: seq<Byte>, rbOut: seq<Byte>, txReady: bool, clientReady: bool, clientTid: nat)

  /** A reply of the server, to a client or to the transmit notifier. */
  datatype Reply = ToClient(tid: nat, data: seq<Byte>) | ToTx(data: seq<Byte>) | ToRx

  /** What the server does with a message: its new state and the replies, or a panic. */
  datatype Outcome = Panic | Served(server: Server, replies: seq<Reply>)

  function Least(a: nat, b: nat): nat {
    if a < b then a else b
  }

  // ----- The server's message handlers -----

  function OnRead(s: Server, tid: nat, len: nat): Outcome {
    if s.rbIn == [] then Served(s.(clientReady := true, clientTid := tid), [])
    else
      var k := Least(len, |s.rbIn|);
      Served(s.(rbIn := s.rbIn[k..]), [ToClient(tid, s.rbIn[..k])])
  }

  function OnWrite(s: Server, tid: nat, data: seq<Byte>): Outcome {
    var out := s.rbOut + data;
    if |out| > CAPACITY then Panic
    else if s.txReady then
      var k := Least(MAX_DATA, |out|);
      Served(s.(rbOut := out[k..], txReady := false), [ToTx(out[..k]), ToClient(tid, [])])
    else Served(s.(rbOut := out), [ToClient(tid, [])])
  }

  function OnRx(s: Server, b: Byte): Outcome {
    if |s.rbIn| >= CAPACITY then Panic
    else
      var buf := s.rbIn + [b];
      if s.clientReady then
        Served(s.(rbIn := buf[1..], clientReady := false), [ToClient(s.clientTid, buf[..1]), ToRx])
      else Served(s.(rbIn := buf), [ToRx])
  }

  function OnTx(s: Server): Outcome {
    var k := Least(MAX_DATA, |s.rbOut|);
    if k > 0 then Served(s.(rbOut := s.rbOut[k..]), [ToTx(s.rbOut[..k])])
    else Served(s.(txReady := true), [])
  }

  // ----- The notifiers -----

  /** The transmit notifier: for byte `i` of its buffer it waits for the UART, on COM1 also
      receives a token and answers its sender, then writes the byte; at the end of the
      buffer it asks the server for more. */
  datatype Tx = Await(i: nat) | Fetch(i: nat) | Confirm(i: nat) | Emit(i: nat) | Asking | Parked

  /** The CTS notifier: its token is offered, taken but not answered yet, or it waits for
      the modem status to change. */
  datatype Cts = Offering | Taken | Waiting

  /** All of it. `data` is the transmit notifier's buffer, `uart` what it wrote. */
  datatype System = System(
    com1: bool, server: Server, data: seq<Byte>, tx: Tx, cts: Cts, halted: bool, uart: seq<Byte>)

  datatype Action =
    | Write(tid: nat, data: seq<Byte>)
    | Read(tid: nat, len: nat)
    | RxByte(b: Byte)
    | ServeTx
    | UartReady
    | TakeToken
    | AnswerToken
    | EmitByte
    | LoopEnd
    | ModemStatus(cts: bool)

  function Start(com1: bool): System {
    System(com1, Server([], [], false, false, 0), [], Await(0), Offering, false, [])
  }

  /** When an action can happen. Clients use Putc, Putstr and Getc, so a message carries at
      most 31 bytes. */
  predicate Enabled(s: System, a: Action) {
    !s.halted &&
    match a
    case Write(_, data) => |data| <= MAX_DATA
    case Read(_, len) => len <= MAX_DATA
    case RxByte(_) => true
    case ServeTx => s.tx == Asking
    case UartReady => s.tx.Await? && s.tx.i < |s.data|
    case TakeToken => s.com1 && s.tx.Fetch? && s.cts == Offering
    case AnswerToken => s.com1 && s.tx.Confirm?
    case EmitByte => s.tx.Emit? && s.tx.i < |s.data|
    case LoopEnd => s.tx.Await? && s.tx.i >= |s.data|
    case ModemStatus(_) => s.com1 && s.cts == Waiting
  }

  /** What the server does about an action; the actions of the notifiers do not concern it. */
  function Respond(s: System, a: Action): Outcome {
    match a
    case Write(tid, data) => OnWrite(s.server, tid, data)
    case Read(tid, len) => OnRead(s.server, tid, len)
    case RxByte(b) => OnRx(s.server, b)
    case ServeTx => OnTx(s.server)
    case _ => Served(s.server, [])
  }

  function Replies(s: System, a: Action): seq<Reply> {
    match Respond(s, a)
    case Panic => []
    case Served(_, replies) => replies
  }

  /** The notifier gets the server's reply, if there is one, as its buffer and starts over. */
  function Loaded(s: System, replies: seq<Reply>): System {
    if replies != [] && replies[0].ToTx? then s.(data := replies[0].data, tx := Await(0)) else s
  }

  function Next(s: System, a: Action): System
    requires Enabled(s, a)
  {
    match Respond(s, a)
    case Panic => s.(halted := true)
    case Served(server, replies) =>
      var s1 := s.(server := server);
      match a
      case Write(_, _) => Loaded(s1, replies)
      case Read(_, _) => s1
      case RxByte(_) => s1
      case ServeTx => Loaded(s1.(tx := Parked), replies)
      case UartReady => s.(tx := if s.com1 then Fetch(s.tx.i) else Emit(s.tx.i))
      case TakeToken => s.(tx := Confirm(s.tx.i), cts := Taken)
      case AnswerToken => s.(tx := Emit(s.tx.i), cts := Waiting)
      case EmitByte => s.(uart := s.uart + [s.data[s.tx.i]], tx := Await(s.tx.i + 1))
      case LoopEnd => s.(data := [], tx := Asking)
      case ModemStatus(clear) => if clear then s.(cts := Offering) else s
  }
}
