/** The circular queue of wepoll: a head and the enqueued nodes form a ring of links; a node that is not
    enqueued points to itself.  The update queue, the deleted queue and the queue of poll groups are such. */
module WepollQueue {
  import opened Collections

  class Node {
    var prev: Node
    var next: Node

    constructor ()
      ensures prev == this && next == this
    {
      prev, next := this, this;
    }

    method Init()
      modifies `next, `prev
      ensures prev == this && next == this
    {
      prev, next := this, this;
    }

    predicate IsEnqueued()
      reads this
    {
      prev != this
    }
  }

  ghost function After(ring: seq<Node>, i: nat): Node
    requires i < |ring|
  {
    ring[if i + 1 < |ring| then i + 1 else 0]
  }

  ghost function Before(ring: seq<Node>, i: nat): Node
    requires i < |ring|
  {
    ring[if i > 0 then i - 1 else |ring| - 1]
  }

  ghost predicate Nexts(ring: seq<Node>)
    reads ring`next
  {
    forall i {:trigger ring[i].next} :: 0 <= i < |ring| ==> ring[i].next == After(ring, i)
  }

  ghost predicate Prevs(ring: seq<Node>)
    reads ring`prev
  {
    forall i {:trigger ring[i].prev} :: 0 <= i < |ring| ==> ring[i].prev == Before(ring, i)
  }

  ghost predicate Linked(ring: seq<Node>)
    reads ring`next, ring`prev
  {
    NoDup(ring) && Nexts(ring) && Prevs(ring)
  }

  // queue__detach_node: the neighbours pass the node over; its own links stay.
  method Detach(node: Node, ghost ring: seq<Node>, ghost k: nat)
    requires Linked(ring) && 0 < k < |ring| && ring[k] == node
    modifies ring`next, ring`prev
    ensures Linked(Removed(ring, k)) && node !in Removed(ring, k)
  {
    hide Removed, NoDup;
    ghost var ring1 := Removed(ring, k);
    RemovedIs(ring, k);
    OnlyAt(ring, k);
    OnlyAt(ring, k - 1);
    OnlyAt(ring, if k + 1 < |ring| then k + 1 else 0);
    assert node.prev == Before(ring, k) && node.next == After(ring, k);
    node.prev.next := node.next;
    node.next.prev := node.prev;
    assert Nexts(ring1);
  }

  // A node goes between `before` and the one that follows it: the links forward and the links back.
  method Link(before: Node, after: Node, node: Node, ghost ring: seq<Node>, ghost k: nat)
    requires Linked(ring) && node !in ring && k < |ring| && before == ring[k] && after == After(ring, k)
    modifies node`next, node`prev, ring`next, ring`prev
    ensures Linked(Inserted(ring, k + 1, node))
  {
    InsertedIs(ring, k + 1, node);
    hide Nexts, Prevs, NoDup, Inserted;
    LinkNext(before, after, node, ring, k);
    LinkPrev(before, after, node, ring, k);
  }

  method LinkNext(before: Node, after: Node, node: Node, ghost ring: seq<Node>, ghost k: nat)
    requires NoDup(ring) && Nexts(ring) && node !in ring && k < |ring| && before == ring[k] && after == After(ring, k)
    modifies node`next, ring`next
    ensures Nexts(Inserted(ring, k + 1, node))
  {
    InsertedIs(ring, k + 1, node);
    OnlyAt(ring, k);
    hide NoDup, Inserted;
    node.next := after;
    before.next := node;
  }

  method LinkPrev(before: Node, after: Node, node: Node, ghost ring: seq<Node>, ghost k: nat)
    requires NoDup(ring) && Prevs(ring) && node !in ring && k < |ring| && before == ring[k] && after == After(ring, k)
    modifies node`prev, ring`prev
    ensures Prevs(Inserted(ring, k + 1, node))
  {
    InsertedIs(ring, k + 1, node);
    OnlyAt(ring, if k + 1 < |ring| then k + 1 else 0);
    hide NoDup, Inserted;
    node.prev := before;
    after.prev := node;
  }

  lemma InsertedAtEnds(head: Node, elems: seq<Node>, node: Node)
    ensures Inserted([head] + elems, 1, node) == [head] + ([node] + elems)
    ensures Inserted([head] + elems, |elems| + 1, node) == [head] + (elems + [node])
  {
  }

  lemma RemovedBehindHead(head: Node, elems: seq<Node>, k: nat)
    requires k < |elems|
    ensures Removed([head] + elems, k + 1) == [head] + Removed(elems, k)
  {
  }

  lemma WithinRemoved(elems: seq<Node>, k: nat)
    requires k < |elems|
    ensures forall x :: x in Removed(elems, k) ==> x in elems
  {
  }

  lemma EndsOf(head: Node, elems: seq<Node>)
    requires Linked([head] + elems)
    ensures head.next == (if elems == [] then head else elems[0])
    ensures head.prev == (if elems == [] then head else elems[|elems| - 1])
  {
    var ring := [head] + elems;
    assert ring[0].next == After(ring, 0) && ring[0].prev == Before(ring, 0);
  }

  // A node points to itself exactly if it is in no queue: a ring of two or more has no such node.
  lemma EnqueuedIff(ring: seq<Node>, k: nat)
    requires Linked(ring) && k < |ring|
    ensures ring[k].IsEnqueued() <==> |ring| > 1
  {
    assert ring[k].prev == Before(ring, k);
    OnlyAt(ring, k);
  }

  class Queue {
    const head: Node
    ghost var elems: seq<Node>

    ghost predicate Valid()
      reads this, head, head`next, head`prev, elems`next, elems`prev
    {
      Linked([head] + elems)
    }

    constructor ()
      ensures Valid() && elems == [] && fresh(head)
    {
      head := new Node();
      elems := [];
    }

    method IsEmpty() returns (empty: bool)
      requires Valid()
      ensures empty == (elems == [])
    {
      EnqueuedIff([head] + elems, 0);
      assert ([head] + elems)[0] == head;
      empty := !head.IsEnqueued();
    }

    method First() returns (node: Node?)
      requires Valid()
      ensures node == if elems == [] then null else elems[0]
    {
      EndsOf(head, elems);
      var empty := IsEmpty();
      node := if empty then null else head.next;
    }

    method Last() returns (node: Node?)
      requires Valid()
      ensures node == if elems == [] then null else elems[|elems| - 1]
    {
      EndsOf(head, elems);
      var empty := IsEmpty();
      node := if empty then null else head.prev;
    }

    method Prepend(node: Node)
      requires Valid() && node != head && node !in elems
      modifies `elems, head`next, head`prev, node`next, node`prev, elems`next, elems`prev
      ensures Valid() && elems == [node] + old(elems)
    {
      EndsOf(head, elems);
      InsertedAtEnds(head, elems, node);
      hide Linked, Inserted;
      Link(head, head.next, node, [head] + elems, 0);
      elems := [node] + elems;
    }

    method Append(node: Node)
      requires Valid() && node != head && node !in elems
      modifies `elems, head`next, head`prev, node`next, node`prev, elems`next, elems`prev
      ensures Valid() && elems == old(elems) + [node]
    {
      EndsOf(head, elems);
      InsertedAtEnds(head, elems, node);
      hide Linked, Inserted;
      Link(head.prev, head, node, [head] + elems, |elems|);
      elems := elems + [node];
    }

    method TakeOut(node: Node, ghost k: nat)
      requires Valid() && k < |elems| && elems[k] == node
      modifies `elems, head`next, head`prev, elems`next, elems`prev
      ensures Valid() && elems == Removed(old(elems), k) && node !in elems && node != head
        && forall x :: x in elems ==> x in old(elems)
    {
      RemovedBehindHead(head, elems, k);
      WithinRemoved(elems, k);
      hide Linked, Removed;
      Detach(node, [head] + elems, k + 1);
      assert node !in [head] + Removed(elems, k);
      elems := Removed(elems, k);
    }

    method MoveToStart(node: Node, ghost k: nat)
      requires Valid() && k < |elems| && elems[k] == node
      modifies `elems, head`next, head`prev, elems`next, elems`prev
      ensures Valid() && elems == [node] + Removed(old(elems), k)
    {
      TakeOut(node, k);
      Prepend(node);
    }

    method MoveToEnd(node: Node, ghost k: nat)
      requires Valid() && k < |elems| && elems[k] == node
      modifies `elems, head`next, head`prev, elems`next, elems`prev
      ensures Valid() && elems == Removed(old(elems), k) + [node]
    {
      TakeOut(node, k);
      Append(node);
    }

    // The node comes to point to itself, so it no longer counts as enqueued.
    method Remove(node: Node, ghost k: nat)
      requires Valid() && k < |elems| && elems[k] == node
      modifies `elems, head`next, head`prev, elems`next, elems`prev
      ensures Valid() && elems == Removed(old(elems), k) && !node.IsEnqueued()
    {
      TakeOut(node, k);
      node.Init();
    }
  }

  // Taking an element out of a queue without repetition is dropping it, as the port's model has it.
  lemma {:induction false} RemovedIsDrop<T>(q: seq<T>, k: nat)
    requires NoDup(q) && k < |q|
    ensures Removed(q, k) == Drop(q, q[k])
  {
    if k > 0 {
      RemovedIsDrop(q[1..], k - 1);
      assert q == [q[0]] + q[1..] && q[k] == q[1..][k - 1];
      assert Removed(q, k) == [q[0]] + Removed(q[1..], k - 1);
    } else {
      assert Removed(q, 0) == q[1..];
    }
  }
}
