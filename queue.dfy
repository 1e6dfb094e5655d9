/**
 * The queue of `queue.py`: a list whose first element is the front; `enqueue`
 * appends, `dequeue` removes the first element.
 */
module Queues {
  class Queue<T> {
    /** The elements from the front to the back. */
    var items: seq<T>

    /** `new_queue`: an empty queue. */
    constructor ()
      ensures items == []
    {
      items := [];
    }

    /** `enqueue`: `x` joins at the back; the elements before it are untouched. */
    method Enqueue(x: T)
      modifies this
      ensures items == old(items) + [x]
    {
      items := items + [x];
    }

    /** `dequeue`: the front element is removed and returned. */
    method Dequeue() returns (x: T)
      requires items != []
      modifies this
      ensures x == old(items)[0] && items == old(items)[1..]
    {
      x := items[0];
      items := items[1..];
    }

    /** `peek`: the front element, which stays in the queue. */
    function Peek(): (x: T)
      reads this
      requires items != []
      ensures items == [x] + items[1..]
    {
      items[0]
    }

    /** `is_empty`. */
    function IsEmpty(): (b: bool)
      reads this
      ensures b <==> Size() == 0
    {
      items == []
    }

    /** `size`: the number of elements. */
    function Size(): (n: nat)
      reads this
      ensures n == 0 <==> items == []
    {
      |items|
    }

    /**
     * First in, first out: after `x` is enqueued, dequeuing everything hands
     * back the elements that were already queued, in order, and then `x`.
     */
    method EnqueueThenDrain(x: T) returns (front: seq<T>, last: T)
      modifies this
      ensures front == old(items) && last == x && items == []
    {
      ghost var q := items;
      Enqueue(x);
      front := [];
      while |items| > 1
        invariant |items| >= 1 && front + items == q + [x]
        decreases |items|
      {
        ghost var before := items;
        var y := Dequeue();
        assert before == [y] + items;
        front := front + [y];
      }
      assert front + [items[0]] == q + [x] by {
        assert items == [items[0]];
      }
      assert front == (front + [items[0]])[..|front|];
      last := Dequeue();
    }
  }
}
