/**
 * `Utils::QueueLF` (xProject/collections/QeueuLockfree.hpp), executed by
 * one thread at a time: a singly linked list of heap nodes whose first
 * node is a sentinel.  `head` is the sentinel, the queued values are held
 * by the nodes after it, and `tail` is the last node.
 */
module LockFreeQueue {

  class Node<T(0)> {
    var value: T
    var next: Node?<T>

    /** `Node()`: a default value and no successor. */
    constructor Empty()
      ensures next == null
    {
      next := null;
    }

    /** `Node(const TypeVal&)`. */
    constructor (v: T)
      ensures value == v && next == null
    {
      value := v;
      next := null;
    }
  }

  class QueueLF<T(0)> {
    var head: Node<T>
    var tail: Node<T>

    /** The nodes from `head` to `tail` in link order; `nodes[0]` is the sentinel. */
    ghost var nodes: seq<Node<T>>
    /** The queued values, oldest first. */
    ghost var Contents: seq<T>
    /** Every node ever linked in; the nodes a pop drops stay here, unreachable. */
    ghost var Repr: set<object>
    /** How many nodes pops have dropped so far. */
    ghost var popped: nat
    /** Each linked node's position counted from the first node ever created; it keeps the nodes distinct. */
    ghost var rank: map<Node<T>, int>

    ghost predicate Valid()
      reads this, Repr
      ensures Valid() ==> this in Repr
    {
      && this in Repr
      && |nodes| == |Contents| + 1
      && (forall i | 0 <= i < |nodes| :: nodes[i] in Repr)
      && nodes[0] == head
      && nodes[|nodes| - 1] == tail
      && tail.next == null
      && (forall i | 0 <= i < |nodes| - 1 :: nodes[i].next == nodes[i + 1])
      && (forall i | 0 <= i < |nodes| :: nodes[i] in rank && rank[nodes[i]] == popped + i)
      && (forall i | 0 <= i < |Contents| :: Contents[i] == nodes[i + 1].value)
    }

    /** The value stored in the sentinel: what the source hands back on an empty queue. */
    ghost function Stale(): T
      reads this, Repr
      requires Valid()
    {
      head.value
    }

    /** A new queue: one sentinel node that is both head and tail. */
    constructor ()
      ensures Valid() && fresh(Repr)
      ensures Contents == [] && head == tail
    {
      var dummy := new Node<T>.Empty();
      head := dummy;
      tail := dummy;
      nodes := [dummy];
      Contents := [];
      Repr := {this, dummy};
      popped := 0;
      rank := map[dummy := 0];
    }

    /** `empty()`: the sentinel is the last node. */
    method IsEmpty() returns (r: bool)
      requires Valid()
      ensures r <==> Contents == []
      ensures r <==> head == tail
    {
      r := head == tail;
      if !r {
        assert nodes[0] != nodes[|nodes| - 1];
      }
    }

    /**
     * `front()`: the oldest value; on an empty queue the source returns the
     * sentinel's value instead of signalling.
     */
    method Front() returns (v: T)
      requires Valid()
      ensures Contents != [] ==> v == Contents[0]
      ensures Contents == [] ==> v == Stale()
    {
      var empty := IsEmpty();
      if !empty {
        assert head.next == nodes[1];
        v := head.next.value;
      } else {
        v := head.value;
      }
    }

    /** `push_back`: link a fresh node after the tail and swing the tail to it. */
    method PushBack(v: T)
      requires Valid()
      modifies Repr
      ensures Valid() && fresh(Repr - old(Repr))
      ensures Contents == old(Contents) + [v]
      ensures tail.value == v && tail.next == null
    {
      var newTail := new Node<T>(v);
      tail.next := newTail;
      tail := newTail;
      rank := rank[newTail := popped + |nodes|];
      nodes := nodes + [newTail];
      Contents := Contents + [v];
      Repr := Repr + {newTail};
      assert forall i | 0 <= i < |nodes| - 1 :: nodes[i].next == nodes[i + 1] by {
        forall i | 0 <= i < |nodes| - 1 ensures nodes[i].next == nodes[i + 1] {
          if i < |nodes| - 2 {
            assert nodes[i] != old(tail);
          }
        }
      }
    }

    /**
     * `pop_front`: on a non-empty queue, move the value out of the node after
     * the sentinel and make that node the new sentinel, dropping the old one.
     * On an empty queue the source moves the sentinel's own value out and
     * leaves the list as it is.  A moved-from value is unspecified (for an
     * owned message: a null connection and an empty body), so the model
     * gives the node an arbitrary value after the move.
     */
    method PopFront() returns (v: T)
      requires Valid()
      modifies Repr
      ensures Valid() && fresh(Repr - old(Repr))
      ensures old(Contents) != [] ==> v == old(Contents)[0] && Contents == old(Contents)[1..]
      ensures old(Contents) == [] ==> v == old(Stale()) && Contents == []
    {
      var empty := IsEmpty();
      if empty {
        v := head.value;
        head.value := *;
        return;
      }
      assert head.next == nodes[1];
      var nextHead := head.next;
      v := nextHead.value;
      nextHead.value := *;
      head := nextHead;
      popped := popped + 1;
      nodes := nodes[1..];
      Contents := Contents[1..];
    }

    /** `clear()`: pop until empty. */
    method Clear()
      requires Valid()
      modifies Repr
      ensures Valid() && fresh(Repr - old(Repr))
      ensures Contents == []
    {
      var empty := IsEmpty();
      while !empty
        invariant Valid() && fresh(Repr - old(Repr))
        invariant empty <==> Contents == []
        decreases |Contents|
      {
        var _ := PopFront();
        empty := IsEmpty();
      }
    }
  }
}
