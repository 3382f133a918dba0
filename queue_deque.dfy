/**
 * `Utils::Queue` (xProject/collections/Queue.hpp): a `std::deque` behind a
 * mutex.  Only the sequential behaviour of one call at a time is modelled;
 * the deque is the field `dequeQueue`.
 */
module DequeQueue {

  class Queue<T> {
    var dequeQueue: seq<T>

    constructor ()
      ensures dequeQueue == []
    {
      dequeQueue := [];
    }

    method PushBack(v: T)
      modifies this
      ensures dequeQueue == old(dequeQueue) + [v]
    {
      dequeQueue := dequeQueue + [v];
    }

    method PushFront(v: T)
      modifies this
      ensures dequeQueue == [v] + old(dequeQueue)
    {
      dequeQueue := [v] + dequeQueue;
    }

    /** `pop_back`: `std::deque::back` on an empty deque is undefined, so callers must check first. */
    method PopBack() returns (v: T)
      requires dequeQueue != []
      modifies this
      ensures v == old(dequeQueue)[|old(dequeQueue)| - 1]
      ensures dequeQueue == old(dequeQueue)[..|old(dequeQueue)| - 1]
    {
      v := dequeQueue[|dequeQueue| - 1];
      dequeQueue := dequeQueue[..|dequeQueue| - 1];
    }

    method PopFront() returns (v: T)
      requires dequeQueue != []
      modifies this
      ensures v == old(dequeQueue)[0]
      ensures dequeQueue == old(dequeQueue)[1..]
    {
      v := dequeQueue[0];
      dequeQueue := dequeQueue[1..];
    }

    method Front() returns (v: T)
      requires dequeQueue != []
      ensures v == dequeQueue[0]
    {
      v := dequeQueue[0];
    }

    method Back() returns (v: T)
      requires dequeQueue != []
      ensures v == dequeQueue[|dequeQueue| - 1]
    {
      v := dequeQueue[|dequeQueue| - 1];
    }

    method Empty() returns (r: bool)
      ensures r <==> Count() == 0
      ensures r <==> dequeQueue == []
    {
      r := |dequeQueue| == 0;
    }

    method Clear()
      modifies this
      ensures dequeQueue == [] && Count() == 0
    {
      dequeQueue := [];
    }

    /** `count()`: the number of elements. */
    function Count(): (n: nat)
      reads this
      ensures n == 0 <==> dequeQueue == []
    {
      |dequeQueue|
    }
  }
}
