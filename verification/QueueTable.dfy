/** A family of linked queues over one pool of nodes, such as the ready queues by
    priority. Node `i` of the pool is embedded in the owner with index `i` and is in at
    most one queue of the family. */
module QueueTables {

  import opened Tables
  import opened Queues

  method MakeQueues(n: nat) returns (queues: seq<Queue>)
    ensures |queues| == n
    ensures forall k: nat :: k < n ==> fresh(queues[k]) && queues[k].chain == [] && queues[k].front == null
                                       && queues[k].elements == 0
    ensures forall a: nat, b: nat :: a < b < n ==> queues[a] != queues[b]
  {
    queues := [];
    for i := 0 to n
      invariant |queues| == i
      invariant forall k: nat :: k < i ==> fresh(queues[k]) && queues[k].chain == [] && queues[k].front == null
                                           && queues[k].elements == 0
      invariant forall a: nat, b: nat :: a < b < i ==> queues[a] != queues[b]
    {
      var q := new Queue();
      queues := queues + [q];
    }
  }

  method MakeNodes(n: nat) returns (nodes: seq<Node>)
    ensures |nodes| == n
    ensures forall k: nat :: k < n ==> fresh(nodes[k]) && nodes[k].data == k
    ensures forall a: nat, b: nat :: a < b < n ==> nodes[a] != nodes[b]
  {
    nodes := [];
    for i := 0 to n
      invariant |nodes| == i
      invariant forall k: nat :: k < i ==> fresh(nodes[k]) && nodes[k].data == k
      invariant forall a: nat, b: nat :: a < b < i ==> nodes[a] != nodes[b]
    {
      var node := new Node(i);
      nodes := nodes + [node];
    }
  }

  class QueueTable {
    const qs: seq<Queue>
    const pool: seq<Node>
    ghost const Repr: set<object>

    /** The owners in every queue, front first. */
    ghost var view: Table

    ghost predicate Fixed() {
      && this in Repr
      && (forall k: nat :: k < |qs| ==> qs[k] in Repr)
      && (forall i: nat :: i < |pool| ==> pool[i] in Repr && pool[i].data == i)
      && (forall a: nat, b: nat :: a < b < |qs| ==> qs[a] != qs[b])
      && (forall a: nat, b: nat :: a < b < |pool| ==> pool[a] != pool[b])
    }

    /** Queue `k` runs through the nodes of the owners in `view[k]`. */
    ghost predicate QueueOk(k: nat)
      requires Fixed() && k < |qs|
      reads this, Repr
    {
      k < |view| && Runs(qs[k].chain, view[k]) && Shaped(qs[k])
    }

    /** All that holds whatever is put where: every queue is chained, and no owner occurs
        twice. */
    ghost predicate Sane()
      reads this, Repr
    {
      && Fixed()
      && |view| == |qs| && Distinct(view)
      && forall k: nat :: k < |qs| ==> QueueOk(k)
    }

    /** Every queue is a proper one: it counts its elements correctly. */
    ghost predicate Valid()
      reads this, Repr
    {
      Sane() && forall k: nat :: k < |qs| ==> qs[k].elements == |view[k]|
    }

    /** `n` empty queues and `m` unlinked nodes. */
    constructor (n: nat, m: nat)
      ensures Valid() && fresh(Repr) && |qs| == n && |pool| == m
      ensures view == Empties(n)
    {
      var queues := MakeQueues(n);
      var nodes := MakeNodes(m);
      qs := queues;
      pool := nodes;
      view := Empties(n);
      Repr := {this} + (set k: nat | k < n :: queues[k] as object) + (set k: nat | k < m :: nodes[k] as object);
      new;
      forall t: nat
        ensures Count(view, t) == 0
      {
        EmptiesCount(n, t);
      }
    }

    /** queue_init on a queue that holds nobody. */
    method Reset(k: nat)
      requires Valid() && k < |qs| && view[k] == []
      modifies Repr
      ensures Valid() && view == old(view)
    {
      qs[k].Init();
      forall j: nat | j < |qs|
        ensures QueueOk(j)
      {
        assert old(QueueOk(j));
        if j != k { qs[j].Undisturbed(); }
      }
    }

    /** A queue that nobody touches stays as it is. */
    twostate lemma StillOk(j: nat)
      requires Fixed() && j < |qs| && old(QueueOk(j)) && unchanged(qs[j])
      requires j < |view| && j < |old(view)| && view[j] == old(view)[j]
      requires forall n: Node :: n in old(qs[j].chain) ==> n.next == old(n.next)
      ensures QueueOk(j)
    {
      qs[j].Undisturbed();
    }

    /** Two queues share no node. */
    lemma Apart(a: nat, b: nat, n: Node)
      requires Sane() && a < |qs| && b < |qs| && a != b && n in qs[a].chain
      ensures n !in qs[b].chain
    {
      if n in qs[b].chain {
        var i :| 0 <= i < |qs[a].chain| && qs[a].chain[i] == n;
        var j :| 0 <= j < |qs[b].chain| && qs[b].chain[j] == n;
        assert QueueOk(a) && QueueOk(b);
        DistinctAt(view, a, i, b, j);
      }
    }

    /** An owner's node is in the chain of a queue exactly when the owner is in its view. */
    lemma InChain(k: nat, t: nat)
      requires Sane() && k < |qs| && t < |pool|
      ensures pool[t] in qs[k].chain <==> t in view[k]
    {
      assert QueueOk(k);
      if pool[t] in qs[k].chain {
        var i :| 0 <= i < |qs[k].chain| && qs[k].chain[i] == pool[t];
        assert view[k][i] == t;
      }
    }

    /** Chain `c` runs through the nodes of the owners in `q`. */
    ghost predicate Runs(c: seq<Node>, q: seq<nat>)
      requires Fixed()
    {
      && |c| == |q|
      && (forall i: nat :: i < |q| ==> q[i] < |pool| && c[i] == pool[q[i]])
      && (forall n: Node :: n in c ==> n in Repr)
    }

    /** Chain and view are cut or extended at the same place. */
    lemma LinkingRuns(k: nat, t: nat)
      requires Sane() && k < |qs| && t < |pool|
      ensures Runs(Linking(qs[k].chain, pool[t]), Linking(view[k], t))
    {
      assert QueueOk(k);
      InChain(k, t);
      if t in view[k] {
        var i: nat :| i < |view[k]| && view[k][i] == t;
        forall j: nat | j < i
          ensures view[k][j] != t && qs[k].chain[j] != pool[t]
        {
          if view[k][j] == t { DistinctAt(view, k, j, k, i); }
        }
        ThroughAt(view[k], t, i);
        ThroughAt(qs[k].chain, pool[t], i);
      }
    }

    /** queue_put on queue `k` with the node of `t`, which is in no other queue of the
        family. If it is in queue `k`, that queue is cut and miscounted. */
    method Put(k: nat, t: nat)
      requires Sane() && k < |qs| && t < |pool| && (t in view[k] || Absent(view, t))
      modifies Repr
      ensures Sane() && view == Link(old(view), k, t)
      ensures forall j: nat :: j < |qs| ==> qs[j].elements == old(qs[j].elements) + if j == k then 1 else 0
      ensures old(Valid()) ==> (Valid() <==> t !in old(view)[k])
      ensures Absent(old(view), t) ==> t !in old(view)[k]
    {
      AbsentHere(view, k, t);
      LinkingLength(view[k], t);
      PutSane(k, t);
    }

    method PutSane(k: nat, t: nat)
      requires Sane() && k < |qs| && t < |pool| && (t in view[k] || Absent(view, t))
      modifies Repr
      ensures Sane() && view == Link(old(view), k, t)
      ensures forall j: nat :: j < |qs| ==> qs[j].elements == old(qs[j].elements) + if j == k then 1 else 0
    {
      BeforePut(k, t);
      view := Link(view, k, t);
      PutNode(k, t);
      forall j: nat | j < |qs|
        ensures QueueOk(j)
      {
        assert Shaped(qs[j]) && Runs(qs[j].chain, view[j]);
      }
    }

    /** What has to be known before a node is put in queue `k`. */
    lemma BeforePut(k: nat, t: nat)
      requires Sane() && k < |qs| && t < |pool| && (t in view[k] || Absent(view, t))
      ensures Separate(k, t) && Distinct(Link(view, k, t))
      ensures forall j: nat :: j < |qs| ==> Shaped(qs[j]) && Runs(qs[j].chain, view[j])
      ensures Runs(Linking(qs[k].chain, pool[t]), Link(view, k, t)[k])
    {
      LinkDistinct(view, k, t);
      LinkingRuns(k, t);
      OnlyThere(k, t);
      forall j: nat | j < |qs|
        ensures Shaped(qs[j]) && Runs(qs[j].chain, view[j])
      {
        assert QueueOk(j);
      }
    }

    static ghost predicate Shaped(q: Queue)
      reads q, q.chain
    {
      q.Chained() && q.BackOk() && q.Counted()
    }

    /** The heap part: the other queues and their nodes are not touched. */
    method PutNode(k: nat, t: nat)
      requires Fixed() && k < |qs| && t < |pool| && Separate(k, t) && forall n: Node :: n in qs[k].chain ==> n in Repr
      requires forall j: nat :: j < |qs| ==> Shaped(qs[j])
      modifies Repr - {this}
      ensures forall j: nat :: j < |qs| ==> Shaped(qs[j])
      ensures forall j: nat :: j < |qs| ==>
        && qs[j].chain == (if j == k then Linking(old(qs[k].chain), pool[t]) else old(qs[j].chain))
        && qs[j].elements == old(qs[j].elements) + if j == k then 1 else 0
    {
      ghost var touched := qs[k].chain;
      assert Shaped(qs[k]);
      var err := qs[k].Put(pool[t]);
      forall j: nat | j < |qs| && j != k
        ensures Shaped(qs[j])
      {
        assert old(Shaped(qs[j]));
        forall n: Node | n in old(qs[j].chain)
          ensures n.next == old(n.next)
        {
          assert n !in touched && n != pool[t];
        }
        qs[j].Undisturbed();
      }
    }

    /** Neither the nodes of queue `k` nor that of `t` are in another queue. */
    ghost predicate Separate(k: nat, t: nat)
      requires Fixed() && k < |qs| && t < |pool|
      reads Repr
    {
      forall j: nat, n: Node :: j < |qs| && j != k && n in qs[j].chain ==> n !in qs[k].chain && n != pool[t]
    }

    lemma OnlyThere(k: nat, t: nat)
      requires Sane() && k < |qs| && t < |pool| && (t in view[k] || Absent(view, t))
      ensures Separate(k, t)
    {
      forall j: nat, n: Node | j < |qs| && j != k && n in qs[j].chain
        ensures n !in qs[k].chain && n != pool[t]
      {
        Apart(j, k, n);
        InChain(j, t);
        if t in view[j] {
          assert Has(view, j, t);
          CountHas(view, t);
          assert Has(view, k, t);
          OneQueue(view, j, k, t);
        }
      }
    }

    method Get(k: nat) returns (t: nat)
      requires Valid() && k < |qs| && view[k] != []
      modifies Repr
      ensures Valid() && view == Pop(old(view), k) && t == old(view)[k][0]
    {
      assert QueueOk(k);
      ghost var touched := qs[k].chain;
      forall j: nat, n: Node | j < |qs| && j != k && n in qs[j].chain
        ensures n !in touched
      {
        Apart(j, k, n);
      }
      PopDistinct(view, k);
      var r := qs[k].Get();
      t := r.value;
      view := Pop(view, k);
      forall j: nat | j < |qs|
        ensures QueueOk(j)
      {
        assert old(QueueOk(j));
        if j != k {
          forall n: Node | n in old(qs[j].chain)
            ensures n.next == old(n.next)
          {
            assert n !in touched;
          }
          StillOk(j);
        }
      }
    }

    method Empty(k: nat) returns (b: bool)
      requires Valid() && k < |qs|
      ensures b <==> view[k] == []
    {
      assert QueueOk(k);
      b := qs[k].Empty();
    }
  }
}
