/** The intrusive linked queue of src/queue/queue.c. A node belongs to its owner (a task
    descriptor, a delay entry, a name entry) and only its links are changed here. `data`
    is the owner's index. */
module Queues {

  import opened Options
  import opened Tables

  class Node {
    const data: nat
    var next: Node?

    constructor (data: nat)
      ensures this.data == data && next == null
    {
      this.data := data;
      next := null;
    }
  }

  class Queue {
    var front: Node?
    var back: Node?
    var elements: nat

    /** The linked nodes, front first. */
    ghost var chain: seq<Node>

    /** From `front`, the links run through the different nodes of `chain` and end in null.
        Nothing is said about `back` and `elements`. */
    ghost predicate Chained()
      reads this, chain
    {
      && (forall i: nat, j: nat :: i < j < |chain| ==> chain[i] != chain[j])
      && (if chain == [] then front == null else front == chain[0] && chain[|chain| - 1].next == null)
      && (forall i: nat :: i + 1 < |chain| ==> chain[i].next == chain[i + 1])
    }

    /** A proper queue: `elements` is the number of nodes in the chain. */
    ghost predicate Linked()
      reads this, chain
    {
      Chained() && elements == |chain|
    }

    /** `back` points to the last node. In an empty queue it may dangle. */
    ghost predicate BackOk()
      reads this
    {
      chain != [] ==> back == chain[|chain| - 1]
    }

    /** `elements` is zero exactly when the chain is empty: all that queue_put relies on. */
    ghost predicate Counted()
      reads this
    {
      elements == 0 <==> chain == []
    }

    /** Changes elsewhere leave a queue alone. */
    twostate lemma Undisturbed()
      requires old(Chained()) && unchanged(this)
      requires forall n: Node :: n in old(chain) ==> n.next == old(n.next)
      ensures Chained()
    {
    }

    constructor ()
      ensures Linked() && BackOk() && chain == []
    {
      front := null;
      back := null;
      elements := 0;
      chain := [];
    }

    /** queue_init */
    method Init()
      modifies this
      ensures Linked() && BackOk() && chain == []
    {
      front := null;
      back := null;
      elements := 0;
      chain := [];
    }

    /** queue_put does not look whether the node is linked already. A new node is appended.
        A node of this queue becomes its last one: the nodes behind it drop out of the
        chain while `elements` still grows, so the queue is a proper one no more. */
    method Put(node: Node?) returns (err: nat)
      requires Chained() && BackOk() && Counted()
      modifies this, chain, node
      ensures Chained() && BackOk() && Counted()
      ensures node == null ==> err == 1 && chain == old(chain) && elements == old(elements)
      ensures node != null ==> err == 0 && chain == Linking(old(chain), node) && elements == old(elements) + 1
      ensures old(Linked()) ==> (Linked() <==> node == null || node !in old(chain))
    {
      if node == null {
        return 1;
      }
      LinkingShape(chain, node);
      if elements == 0 {
        front := node;
      } else {
        back.next := node;
      }
      back := node;
      node.next := null;
      elements := elements + 1;
      chain := Linking(chain, node);
      return 0;
    }

    method PutFront(node: Node?) returns (err: nat)
      requires Linked() && (node != null ==> node !in chain)
      modifies this, node
      ensures Linked() && (old(BackOk()) ==> BackOk())
      ensures node == null ==> err == 1 && chain == old(chain)
      ensures node != null ==> err == 0 && chain == [node] + old(chain)
    {
      if node == null {
        return 1;
      }
      if elements == 0 {
        back := node;
        node.next := null;
      } else {
        node.next := front;
      }
      front := node;
      elements := elements + 1;
      chain := [node] + chain;
      return 0;
    }

    /** Takes the front node out and returns its owner; None for NULL. It follows `front`
        whenever `elements` is not zero. */
    method Get() returns (r: Option<nat>)
      requires Chained() && (elements == 0 ==> chain == []) && (elements > 0 ==> front != null)
      modifies this, front
      ensures Chained() && (old(BackOk()) ==> BackOk()) && (old(Linked()) ==> Linked())
      ensures old(chain) == [] ==> r == None && chain == [] && elements == 0
      ensures old(chain) != [] ==> r == Some(old(chain)[0].data) && chain == old(chain)[1..]
      ensures old(chain) != [] ==> old(chain)[0].next == null && elements == old(elements) - 1
    {
      var empty := Empty();
      if empty {
        return None;
      }
      r := Some(front.data);
      var first := front;
      front := front.next;
      first.next := null;
      elements := elements - 1;
      chain := chain[1..];
    }

    method Peek() returns (r: Option<nat>)
      requires Linked()
      ensures r == if chain == [] then None else Some(chain[0].data)
    {
      var empty := Empty();
      if empty {
        return None;
      }
      return Some(front.data);
    }

    method Size() returns (n: nat)
      ensures n == elements && (Linked() ==> n == |chain|)
    {
      return elements;
    }

    method Empty() returns (b: bool)
      ensures b <==> elements == 0
      ensures Linked() ==> (b <==> chain == [])
    {
      var n := Size();
      return n == 0;
    }
  }

  /** What becomes of a proper queue when one of its nodes is put in again: once its chain
      is drained, `front` is null and `elements` is not zero, so that the next queue_get
      follows a null pointer. */
  method DrainRelinked(q: Queue, node: Node) returns (drained: seq<nat>)
    requires q.Linked() && q.BackOk() && node in q.chain
    modifies q, q.chain
    ensures q.front == null && q.elements > 0 && q.elements + |drained| == |old(q.chain)| + 1
    ensures |drained| == |Through(old(q.chain), node)|
  {
    var err := q.Put(node);
    drained := [];
    ghost var cut := q.chain;
    assert cut == old(q.chain)[..|cut|];
    while q.front != null
      invariant q.Chained() && |drained| + |q.chain| == |cut| && q.elements == |old(q.chain)| + 1 - |drained|
      invariant forall n: Node :: n in q.chain ==> n in old(q.chain)
      decreases |q.chain|
    {
      assert q.front == q.chain[0] && q.chain[0] in q.chain;
      var t := q.Get();
      drained := drained + [t.value];
    }
  }
}
