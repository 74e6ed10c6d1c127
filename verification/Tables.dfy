/** A table of FIFO queues of task numbers, as plain values: the ready queues by
    priority, the send queues by receiver and the await queues by event all have
    this shape. */
module Tables {

  type Table = seq<seq<nat>>

  /** `n` empty queues. */
  function Empties(n: nat): (v: Table)
    ensures |v| == n && forall k: nat :: k < n ==> v[k] == []
  {
    seq(n, i => [])
  }

  /** Task `t` is somewhere in queue `k`. */
  predicate Has(v: Table, k: nat, t: nat) {
    k < |v| && t in v[k]
  }

  /** How often task `t` occurs in all queues together. */
  function Count(v: Table, t: nat): nat {
    if v == [] then 0 else multiset(v[0])[t] + Count(v[1..], t)
  }

  /** No task occurs twice, neither in one queue nor in two. */
  ghost predicate Distinct(v: Table) {
    forall t: nat :: Count(v, t) <= 1
  }

  ghost predicate Absent(v: Table, t: nat) {
    Count(v, t) == 0
  }

  function Push(v: Table, k: nat, t: nat): Table
    requires k < |v|
  {
    v[k := v[k] + [t]]
  }

  /** A sequence up to the first `t` in it. */
  function Through<T(==)>(q: seq<T>, t: T): (r: seq<T>)
    requires t in q
    ensures 0 < |r| <= |q| && r == q[..|r|] && r[|r| - 1] == t && t !in r[..|r| - 1]
  {
    if q[0] == t then [t]
    else
      var r := Through(q[1..], t);
      assert ([q[0]] + r)[..|r|] == [q[0]] + r[..|r| - 1];
      [q[0]] + r
  }

  /** What queue_put makes of a queue: a new member goes to its end; a member whose node is
      linked already becomes the last one, and everybody behind it drops out. */
  function Linking<T(==)>(q: seq<T>, t: T): seq<T> {
    if t in q then Through(q, t) else q + [t]
  }

  function Link(v: Table, k: nat, t: nat): Table
    requires k < |v|
  {
    v[k := Linking(v[k], t)]
  }

  function Pop(v: Table, k: nat): Table
    requires k < |v| && v[k] != []
  {
    v[k := v[k][1..]]
  }

  /** The first non-empty queue, or the table's length when all are empty. */
  function Lowest(v: Table): (k: nat)
    ensures k <= |v|
    ensures k < |v| ==> v[k] != []
    ensures forall j: nat :: j < k ==> v[j] == []
  {
    if v == [] || v[0] != [] then 0
    else
      assert forall j: nat :: 0 < j < |v| ==> v[j] == v[1..][j - 1];
      1 + Lowest(v[1..])
  }

  // ----- Counting -----

  lemma EmptiesCount(n: nat, t: nat)
    ensures Count(Empties(n), t) == 0
  {
    CountHas(Empties(n), t);
  }

  /** Replacing one queue changes the count by what that queue gained or lost. */
  lemma {:induction false} CountUpdate(v: Table, k: nat, q: seq<nat>, t: nat)
    requires k < |v|
    ensures Count(v[k := q], t) + multiset(v[k])[t] == Count(v, t) + multiset(q)[t]
  {
    if k == 0 {
      assert v[k := q][1..] == v[1..];
    } else {
      assert v[k := q][1..] == v[1..][k - 1 := q];
      CountUpdate(v[1..], k - 1, q, t);
    }
  }

  lemma CountPush(v: Table, k: nat, t: nat, x: nat)
    requires k < |v|
    ensures Count(Push(v, k, t), x) == Count(v, x) + if x == t then 1 else 0
  {
    CountUpdate(v, k, v[k] + [t], x);
  }

  lemma CountPop(v: Table, k: nat, x: nat)
    requires k < |v| && v[k] != []
    ensures Count(v, x) == Count(Pop(v, k), x) + if x == v[k][0] then 1 else 0
  {
    assert v[k] == [v[k][0]] + v[k][1..];
    CountUpdate(v, k, v[k][1..], x);
  }

  lemma {:induction false} ThroughAt<T>(q: seq<T>, t: T, i: nat)
    requires i < |q| && q[i] == t && forall j: nat :: j < i ==> q[j] != t
    ensures Through(q, t) == q[..i + 1]
  {
    if i > 0 {
      ThroughAt(q[1..], t, i - 1);
      assert q[..i + 1] == [q[0]] + q[1..][..i];
    }
  }

  lemma LinkingLength<T>(q: seq<T>, t: T)
    ensures |Linking(q, t)| == |q| + 1 <==> t !in q
  {
  }

  /** The result of queue_put, index by index. */
  lemma LinkingShape<T>(q: seq<T>, t: T)
    requires forall i: nat, j: nat :: i < j < |q| ==> q[i] != q[j]
    ensures var r := Linking(q, t);
      && 0 < |r| && r[|r| - 1] == t && (if t in q then |r| <= |q| else |r| == |q| + 1)
      && (forall i: nat :: i < |r| - 1 ==> r[i] == q[i] && q[i] != t)
      && (forall i: nat, j: nat :: i < j < |r| ==> r[i] != r[j])
  {
    var r := Linking(q, t);
    forall i: nat | i < |r| - 1
      ensures r[i] == q[i] && q[i] != t
    {
      if t in q { assert r[i] == r[..|r| - 1][i]; }
    }
  }

  lemma LinkDistinct(v: Table, k: nat, t: nat)
    requires k < |v| && Distinct(v) && (t in v[k] || Absent(v, t))
    ensures Distinct(Link(v, k, t))
  {
    if t in v[k] {
      var q, r := v[k], Through(v[k], t);
      assert q == r + q[|r|..];
      forall x: nat
        ensures Count(Link(v, k, t), x) <= 1
      {
        CountUpdate(v, k, r, x);
        assert Count(v, x) <= 1;
      }
    } else {
      PushDistinct(v, k, t);
    }
  }

  /** Counted somewhere means found somewhere. */
  lemma {:induction false} CountHas(v: Table, t: nat)
    ensures Count(v, t) > 0 <==> exists k: nat :: Has(v, k, t)
  {
    if v != [] {
      CountHas(v[1..], t);
      if Count(v[1..], t) > 0 {
        var k: nat :| Has(v[1..], k, t);
        assert Has(v, k + 1, t);
      }
      if multiset(v[0])[t] > 0 {
        assert t in multiset(v[0]);
        assert Has(v, 0, t);
      }
      if k: nat :| Has(v, k, t) {
        if k == 0 {
          assert t in multiset(v[0]);
        } else {
          assert Has(v[1..], k - 1, t);
        }
      }
    }
  }

  lemma AbsentHere(v: Table, k: nat, t: nat)
    requires k < |v|
    ensures Absent(v, t) ==> t !in v[k]
  {
    CountHas(v, t);
    if t in v[k] { assert Has(v, k, t); }
  }

  /** Two different places of the same task count twice. */
  lemma {:induction false} CountTwo(v: Table, a: nat, b: nat, t: nat)
    requires a < b && Has(v, a, t) && Has(v, b, t)
    ensures Count(v, t) >= 2
  {
    if a == 0 {
      assert t in multiset(v[0]);
      assert Has(v[1..], b - 1, t);
      CountHas(v[1..], t);
    } else {
      CountTwo(v[1..], a - 1, b - 1, t);
    }
  }

  lemma CountSame(v: Table, a: nat, i: nat, j: nat)
    requires a < |v| && i < j < |v[a]| && v[a][i] == v[a][j]
    ensures Count(v, v[a][i]) >= 2
  {
    var t := v[a][i];
    var q := v[a];
    assert q == q[..i] + [t] + q[i + 1..j] + [t] + q[j + 1..];
    CountUpdate(v, a, [], t);
  }

  // ----- Membership and distinctness under the two moves -----

  lemma PushHas(v: Table, k: nat, t: nat)
    requires k < |v|
    ensures forall a: nat, x: nat :: Has(Push(v, k, t), a, x) <==> Has(v, a, x) || (a == k && x == t)
  {
    forall a: nat, x: nat
      ensures Has(Push(v, k, t), a, x) <==> Has(v, a, x) || (a == k && x == t)
    {
      if a == k {
        assert Push(v, k, t)[a] == v[k] + [t];
      }
    }
  }

  lemma PushDistinct(v: Table, k: nat, t: nat)
    requires k < |v| && Distinct(v) && Absent(v, t)
    ensures Distinct(Push(v, k, t))
  {
    forall x: nat
      ensures Count(Push(v, k, t), x) <= 1
    {
      CountPush(v, k, t, x);
      assert Count(v, x) <= 1;
    }
  }

  lemma PopDistinct(v: Table, k: nat)
    requires k < |v| && v[k] != [] && Distinct(v)
    ensures Distinct(Pop(v, k)) && Absent(Pop(v, k), v[k][0])
  {
    forall x: nat
      ensures Count(Pop(v, k), x) <= 1
    {
      CountPop(v, k, x);
      assert Count(v, x) <= 1;
    }
    CountPop(v, k, v[k][0]);
    assert Count(v, v[k][0]) <= 1;
  }

  lemma PopHas(v: Table, k: nat)
    requires k < |v| && v[k] != [] && Distinct(v)
    ensures forall a: nat, x: nat :: Has(Pop(v, k), a, x) <==> Has(v, a, x) && x != v[k][0]
  {
    var w := Pop(v, k);
    PopDistinct(v, k);
    CountHas(w, v[k][0]);
    forall a: nat, x: nat
      ensures Has(w, a, x) <==> Has(v, a, x) && x != v[k][0]
    {
      assert v[k] == [v[k][0]] + v[k][1..];
    }
  }

  /** A task can only be in one queue. */
  lemma OneQueue(v: Table, a: nat, b: nat, t: nat)
    requires Distinct(v) && Has(v, a, t) && Has(v, b, t)
    ensures a == b
  {
    assert Count(v, t) <= 1;
    if a < b { CountTwo(v, a, b, t); }
    if b < a { CountTwo(v, b, a, t); }
  }

  /** Distinctness, index by index. */
  lemma DistinctAt(v: Table, a: nat, i: nat, b: nat, j: nat)
    requires Distinct(v) && a < |v| && b < |v| && i < |v[a]| && j < |v[b]| && v[a][i] == v[b][j]
    ensures a == b && i == j
  {
    var t := v[a][i];
    assert Count(v, t) <= 1;
    assert Has(v, a, t) && Has(v, b, t);
    OneQueue(v, a, b, t);
    if i < j { CountSame(v, a, i, j); }
    if j < i { CountSame(v, a, j, i); }
  }
}
