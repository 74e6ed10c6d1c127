/** The name server of src/name_server/name_server.c: every registration takes a fresh
    entry and goes to the front of a linked list, and lookups walk it from the front. */
module NameServers {

  import opened Options
  import opened Queues
  import opened QueueTables
  import opened CStrings

  const MAX_NAMES: nat := 256
  const NAME_LEN: nat := 12

  /** A registration as the clients see it. */
  datatype Registration = Registration(name: seq<Char>, tid: nat)

  /** The latest registration of a name. */
  function Lookup(regs: seq<Registration>, name: seq<Char>): Option<nat> {
    if regs == [] then None
    else
      var last := regs[|regs| - 1];
      if last.name == name then Some(last.tid) else Lookup(regs[..|regs| - 1], name)
  }

  /** Registration `i` is the latest one of its name. */
  ghost predicate Latest(regs: seq<Registration>, i: nat) {
    i < |regs| && forall j: nat :: i < j < |regs| ==> regs[j].name != regs[i].name
  }

  /** Lookup finds the tid of the latest registration, and nothing exactly when the name
      was never registered. */
  lemma {:induction false} LookupLatest(regs: seq<Registration>, name: seq<Char>)
    ensures Lookup(regs, name) == None <==> forall i: nat :: i < |regs| ==> regs[i].name != name
    ensures forall i: nat :: Latest(regs, i) && regs[i].name == name ==> Lookup(regs, name) == Some(regs[i].tid)
  {
    if regs != [] {
      var n := |regs| - 1;
      var front := regs[..n];
      LookupLatest(front, name);
      forall i: nat | Latest(regs, i) && regs[i].name == name
        ensures Lookup(regs, name) == Some(regs[i].tid)
      {
        if i < n {
          assert regs[n].name != regs[i].name;
          assert Latest(front, i);
        }
      }
      if Lookup(regs, name) == None {
        forall i: nat | i < |regs|
          ensures regs[i].name != name
        {
          if i < n { assert front[i].name != name; }
        }
      }
    }
  }

  // ----- The request loop -----

  datatype Kind = Reg | Who
  datatype Message = Message(kind: Kind, name: seq<Char>)

  /** The reply to a WHO request; 1 stands for "not registered". */
  function WhoReply(regs: seq<Registration>, name: seq<Char>): nat {
    var r := Lookup(regs, name);
    if r.None? then 1 else r.value
  }

  /** A reply of 1 means that the name is not registered, unless task 1 registered it. */
  lemma ReplyOneIff(regs: seq<Registration>, name: seq<Char>)
    ensures WhoReply(regs, name) == 1 <==> Lookup(regs, name) == None || Lookup(regs, name) == Some(1)
    ensures (forall i: nat :: i < |regs| ==> regs[i].tid != 1) ==>
              (WhoReply(regs, name) == 1 <==> forall i: nat :: i < |regs| ==> regs[i].name != name)
  {
    LookupLatest(regs, name);
    LookupRegistered(regs, name);
  }

  lemma {:induction false} LookupRegistered(regs: seq<Registration>, name: seq<Char>)
    ensures Lookup(regs, name).Some? ==>
              exists i: nat :: i < |regs| && regs[i].name == name && Lookup(regs, name) == Some(regs[i].tid)
  {
    if regs != [] && regs[|regs| - 1].name != name {
      LookupRegistered(regs[..|regs| - 1], name);
      if Lookup(regs, name).Some? {
        var i: nat :| i < |regs| - 1 && regs[..|regs| - 1][i].name == name
                      && Lookup(regs, name) == Some(regs[..|regs| - 1][i].tid);
        assert regs[i].name == name;
      }
    } else if regs != [] {
      assert regs[|regs| - 1].name == name;
    }
  }

  datatype Request = Request(sender: nat, msg: Message)

  /** The registrations of a run of requests, in order. */
  function Registrations(reqs: seq<Request>): seq<Registration> {
    if reqs == [] then []
    else
      var r := reqs[|reqs| - 1];
      Registrations(reqs[..|reqs| - 1]) +
      if r.msg.kind == Reg then [Registration(CStr(r.msg.name, NAME_LEN), r.sender)] else []
  }

  predicate Registers(r: Request, name: seq<Char>) {
    r.msg.kind == Reg && CStr(r.msg.name, NAME_LEN) == name
  }

  /** After any run of requests, WHO answers with the sender of the latest registration of
      the name. */
  lemma {:induction false} WhoAfterRun(reqs: seq<Request>, i: nat, name: seq<Char>)
    requires i < |reqs| && Registers(reqs[i], name)
    requires forall j: nat :: i < j < |reqs| ==> !Registers(reqs[j], name)
    ensures WhoReply(Registrations(reqs), name) == reqs[i].sender
  {
    var n := |reqs| - 1;
    if i < n {
      assert !Registers(reqs[n], name);
      WhoAfterRun(reqs[..n], i, name);
      var regs := Registrations(reqs[..n]);
      if reqs[n].msg.kind == Reg {
        assert Registrations(reqs)[..|regs|] == regs;
      } else {
        assert Registrations(reqs) == regs;
      }
    }
  }

  /** Before anybody registers the name, the answer is 1. */
  lemma {:induction false} WhoUnregistered(reqs: seq<Request>, name: seq<Char>)
    requires forall j: nat :: j < |reqs| ==> !Registers(reqs[j], name)
    ensures WhoReply(Registrations(reqs), name) == 1
  {
    if reqs != [] {
      var n := |reqs| - 1;
      assert !Registers(reqs[n], name);
      WhoUnregistered(reqs[..n], name);
      var regs := Registrations(reqs[..n]);
      if reqs[n].msg.kind == Reg {
        assert Registrations(reqs)[..|regs|] == regs;
      } else {
        assert Registrations(reqs) == regs;
      }
    }
  }

  /** What strncpy leaves in a field of 12 characters. */
  function Field(s: seq<Char>): seq<Char> {
    Padded(CStr(s, NAME_LEN), NAME_LEN)
  }

  /** End to end: a client string is cut to 12 characters into the request, copied once
      more into the entry, and compared there. Registering `a` and asking for `b` meet
      exactly when the strings agree up to the first NUL or 12 characters. */
  lemma NamesMeetIff(a: seq<Char>, b: seq<Char>)
    ensures CStr(Field(Field(a)), NAME_LEN) == CStr(Field(b), NAME_LEN) <==> CStr(a, NAME_LEN) == CStr(b, NAME_LEN)
  {
    PaddedRoundTrip(CStr(a, NAME_LEN), NAME_LEN);
    PaddedRoundTrip(CStr(b, NAME_LEN), NAME_LEN);
  }

  /** Request `j` is the latest registration of `name` before request `i`. */
  ghost predicate LatestBefore(reqs: seq<Request>, i: nat, j: nat, name: seq<Char>)
    requires i <= |reqs|
  {
    j < i && Registers(reqs[j], name) && forall k: nat :: j < k < i ==> !Registers(reqs[k], name)
  }

  /** The reply to request `i` of a run: 0 for a registration; otherwise the sender of the
      latest registration of the name before it, or 1 if there is none. */
  ghost predicate RightReply(reqs: seq<Request>, i: nat, rep: nat)
    requires i < |reqs|
  {
    var name := CStr(reqs[i].msg.name, NAME_LEN);
    if reqs[i].msg.kind == Reg then rep == 0
    else
      && (forall j: nat :: LatestBefore(reqs, i, j, name) ==> rep == reqs[j].sender)
      && ((forall j: nat :: j < i ==> !Registers(reqs[j], name)) ==> rep == 1)
  }

  lemma WhoIsRight(reqs: seq<Request>, i: nat)
    requires i < |reqs| && reqs[i].msg.kind == Who
    ensures RightReply(reqs, i, WhoReply(Registrations(reqs[..i]), CStr(reqs[i].msg.name, NAME_LEN)))
  {
    var name, before := CStr(reqs[i].msg.name, NAME_LEN), reqs[..i];
    forall j: nat | LatestBefore(reqs, i, j, name)
      ensures WhoReply(Registrations(before), name) == reqs[j].sender
    {
      WhoAfterRun(before, j, name);
    }
    if forall j: nat :: j < i ==> !Registers(reqs[j], name) { WhoUnregistered(before, name); }
  }

  lemma OneRequest(reqs: seq<Request>, i: nat)
    requires i < |reqs|
    ensures Registrations(reqs[..i + 1]) == Registrations(reqs[..i]) +
      if reqs[i].msg.kind == Reg then [Registration(CStr(reqs[i].msg.name, NAME_LEN), reqs[i].sender)] else []
  {
    assert reqs[..i + 1][..i] == reqs[..i];
  }

  lemma {:induction false} RegistrationsGrow(reqs: seq<Request>, i: nat)
    requires i <= |reqs|
    ensures |Registrations(reqs[..i])| <= |Registrations(reqs)|
  {
    if i < |reqs| {
      var n := |reqs| - 1;
      RegistrationsGrow(reqs[..n], i);
      assert reqs[..n][..i] == reqs[..i];
    } else {
      assert reqs[..i] == reqs;
    }
  }

  /** The same `n` characters, which are all 12 or are followed by a NUL in both. */
  predicate AgreeUpTo(a: seq<Char>, b: seq<Char>, n: nat) {
    && n <= 12 && n <= |a| && n <= |b| && a[..n] == b[..n] && 0 !in a[..n]
    && (n == 12 || (n < |a| && n < |b| && a[n] == 0 == b[n]))
  }

  /** In characters: two names meet exactly when they have the same first 12 characters, or
      the same ones up to a NUL in both. */
  lemma MeetByCharacter(a: seq<Char>, b: seq<Char>)
    requires Readable(a, 12) && Readable(b, 12)
    ensures CStr(a, NAME_LEN) == CStr(b, NAME_LEN) <==> exists n: nat :: AgreeUpTo(a, b, n)
  {
    if n: nat :| AgreeUpTo(a, b, n) {
      CStrIs(a, 12, n);
      CStrIs(b, 12, n);
    }
    if CStr(a, 12) == CStr(b, 12) { SameUpTo(a, b); }
  }

  lemma SameUpTo(a: seq<Char>, b: seq<Char>)
    requires Readable(a, 12) && Readable(b, 12) && CStr(a, 12) == CStr(b, 12)
    ensures AgreeUpTo(a, b, |CStr(a, 12)|)
  {
    var n := |CStr(a, 12)|;
    assert a[..n] == CStr(a, 12) && b[..n] == CStr(b, 12);
    if n < 12 {
      ReadableToNul(a, n);
      ReadableToNul(b, n);
    }
  }

  lemma ReadableToNul(a: seq<Char>, n: nat)
    requires Readable(a, 12) && n <= |a| && n < 12 && 0 !in a[..n]
    ensures n < |a|
  {
    assert a[..|a|] == a;
  }

  // ----- The map on the heap -----

  datatype Entry = Entry(name: seq<Char>, tid: nat)

  class NameMap {
    const queue: Queue
    const nodes: seq<Node>
    const nodeData: array<Entry>
    ghost var regs: seq<Registration>
    ghost const Repr: set<object>

    ghost predicate Fixed() {
      && this in Repr && queue in Repr && nodeData in Repr
      && |nodes| == MAX_NAMES && nodeData.Length == MAX_NAMES
      && (forall i: nat :: i < MAX_NAMES ==> nodes[i] in Repr && nodes[i].data == i)
      && (forall i: nat, j: nat :: i < j < MAX_NAMES ==> nodes[i] != nodes[j])
    }

    /** The list runs from the entry of the latest registration to that of the first. */
    ghost predicate Valid()
      reads this, Repr
    {
      && Fixed()
      && |regs| <= MAX_NAMES && |queue.chain| == |regs|
      && (forall i: nat :: i < |regs| ==> queue.chain[i] == nodes[|regs| - 1 - i])
      && (forall n: Node :: n in queue.chain ==> n in Repr)
      && queue.Linked()
      && (forall i: nat :: i < |regs| ==> EntryHolds(nodeData[i], regs[i]))
    }

    static ghost predicate EntryHolds(e: Entry, r: Registration) {
      |e.name| == NAME_LEN && CStr(e.name, NAME_LEN) == r.name && e.tid == r.tid
    }

    constructor ()
      ensures Valid() && fresh(Repr) && regs == []
    {
      var q := new Queue();
      var ns := MakeNodes(MAX_NAMES);
      var d := new Entry[MAX_NAMES](i => Entry(Zeros(NAME_LEN), 0));
      queue, nodes, nodeData := q, ns, d;
      regs := [];
      Repr := {this, q, d} + (set k: nat | k < MAX_NAMES :: ns[k] as object);
    }

    /** Takes the next unused entry. The source does not check that there is one left. */
    method Insert(name: seq<Char>, tid: nat) returns (err: nat)
      requires Valid() && |name| == NAME_LEN && |regs| < MAX_NAMES
      modifies Repr
      ensures Valid() && err == 0 && regs == old(regs) + [Registration(CStr(name, NAME_LEN), tid)]
    {
      var elements := queue.Size();
      var field := CopyName(name);
      FillEntry(elements, Entry(field, tid));
      err := LinkEntry(elements, Registration(CStr(name, NAME_LEN), tid));
    }

    /** strncpy into the 12 characters of an entry */
    static method CopyName(name: seq<Char>) returns (field: seq<Char>)
      requires |name| == NAME_LEN
      ensures |field| == NAME_LEN && CStr(field, NAME_LEN) == CStr(name, NAME_LEN)
    {
      var chars := new Char[NAME_LEN](i => 0);
      Strncpy(chars, name, NAME_LEN);
      PaddedRoundTrip(CStr(name, NAME_LEN), NAME_LEN);
      assert chars[..] == chars[..NAME_LEN];
      field := chars[..];
    }

    method FillEntry(e: nat, entry: Entry)
      requires Valid() && e == |regs| < MAX_NAMES
      modifies Repr
      ensures Valid() && regs == old(regs) && nodeData[e] == entry
    {
      nodeData[e] := entry;
    }

    method LinkEntry(e: nat, ghost r: Registration) returns (err: nat)
      requires Valid() && e == |regs| < MAX_NAMES && EntryHolds(nodeData[e], r)
      modifies Repr
      ensures Valid() && err == 0 && regs == old(regs) + [r]
    {
      forall i: nat | i < |regs|
        ensures queue.chain[i] != nodes[e]
      {
        assert queue.chain[i] == nodes[|regs| - 1 - i];
      }
      err := queue.PutFront(nodes[e]);
      regs := regs + [r];
      forall i: nat | i < |regs|
        ensures queue.chain[i] == nodes[|regs| - 1 - i]
      {
        if i > 0 { assert queue.chain[i] == old(queue.chain)[i - 1]; }
      }
    }

    /** The list goes from the entry of one registration to that of the one before. */
    lemma NextEntry(k: nat)
      requires Valid() && 0 < k <= |regs|
      ensures nodes[k - 1].next == if k == 1 then null else nodes[k - 2]
      ensures k == |regs| ==> queue.front == nodes[k - 1]
    {
      var p := |regs| - k;
      assert queue.chain[p] == nodes[|regs| - 1 - p];
      if k > 1 {
        assert queue.chain[p].next == queue.chain[p + 1];
        assert queue.chain[p + 1] == nodes[|regs| - 1 - (p + 1)];
      }
    }

    /** The entry of the latest registration of the name, or None for NULL. */
    method Find(name: seq<Char>) returns (r: Option<nat>)
      requires Valid() && |name| == NAME_LEN
      ensures match Lookup(regs, CStr(name, NAME_LEN))
              case None => r == None
              case Some(tid) => r.Some? && r.value < MAX_NAMES && nodeData[r.value].tid == tid
    {
      ghost var key := CStr(name, NAME_LEN);
      var next := queue.front;
      ghost var k: nat := |regs|;
      if k > 0 { NextEntry(k); }
      while next != null
        invariant k <= |regs| && next == if k == 0 then null else nodes[k - 1]
        invariant forall i: nat :: k <= i < |regs| ==> regs[i].name != key
        decreases k
      {
        var same := SameName(next.data, name);
        if same {
          Found(k - 1, key);
          return Some(next.data);
        }
        NextEntry(k);
        next := next.next;
        k := k - 1;
      }
      LookupLatest(regs, key);
      return None;
    }

    /** The first entry of the list with the name is that of its latest registration. */
    lemma Found(e: nat, key: seq<Char>)
      requires Valid() && e < |regs| && regs[e].name == key && forall i: nat :: e < i < |regs| ==> regs[i].name != key
      ensures Lookup(regs, key) == Some(nodeData[e].tid)
    {
      LookupLatest(regs, key);
      assert Latest(regs, e);
      assert EntryHolds(nodeData[e], regs[e]);
    }

    /** strncmp on the name of an entry in use */
    method SameName(e: nat, name: seq<Char>) returns (b: bool)
      requires Valid() && e < |regs| && |name| == NAME_LEN
      ensures b <==> regs[e].name == CStr(name, NAME_LEN)
    {
      assert EntryHolds(nodeData[e], regs[e]);
      var c := Strncmp(nodeData[e].name, name, NAME_LEN);
      return c == 0;
    }

    /** One turn of the request loop: the reply for the sender. */
    method Serve(sender: nat, msg: Message) returns (rep: nat)
      requires Valid() && |msg.name| == NAME_LEN && (msg.kind == Reg ==> |regs| < MAX_NAMES)
      modifies Repr
      ensures Valid()
      ensures match msg.kind
              case Reg => rep == 0 && regs == old(regs) + [Registration(CStr(msg.name, NAME_LEN), sender)]
              case Who => rep == WhoReply(old(regs), CStr(msg.name, NAME_LEN)) && regs == old(regs)
    {
      match msg.kind
      case Reg =>
        rep := Insert(msg.name, sender);
      case Who =>
        var entry := Find(msg.name);
        rep := if entry.None? then 1 else nodeData[entry.value].tid;
    }

    /** The request loop over any sequence of requests, from an empty map. */
    method ServeAll(reqs: seq<Request>) returns (reps: seq<nat>)
      requires Valid() && regs == [] && |Registrations(reqs)| <= 256
      requires forall i: nat :: i < |reqs| ==> |reqs[i].msg.name| == NAME_LEN
      modifies Repr
      ensures Valid() && regs == Registrations(reqs) && |reps| == |reqs|
      ensures forall i: nat :: i < |reqs| ==> RightReply(reqs, i, reps[i])
    {
      reps := [];
      for i := 0 to |reqs|
        invariant Valid() && regs == Registrations(reqs[..i]) && |reps| == i
        invariant forall k: nat :: k < i ==> RightReply(reqs, k, reps[k])
      {
        var rep := ServeAt(reqs, i);
        reps := reps + [rep];
      }
      assert reqs[..|reqs|] == reqs;
    }

    method ServeAt(reqs: seq<Request>, i: nat) returns (rep: nat)
      requires Valid() && i < |reqs| && regs == Registrations(reqs[..i]) && |Registrations(reqs)| <= MAX_NAMES
      requires |reqs[i].msg.name| == NAME_LEN
      modifies Repr
      ensures Valid() && regs == Registrations(reqs[..i + 1]) && RightReply(reqs, i, rep)
    {
      RegistrationsGrow(reqs, i + 1);
      OneRequest(reqs, i);
      rep := Serve(reqs[i].sender, reqs[i].msg);
      if reqs[i].msg.kind == Who { WhoIsRight(reqs, i); }
    }
  }
}
