/**
 * The stack of `stack.py`: a list whose last element is the top; `push`
 * appends, `pop` removes the last element.
 */
module Stacks {
  import opened Wrappers

  /** Why `pop` refuses. */
  datatype StackError = EmptyStack

  class Stack<T> {
    /** The elements from the bottom to the top. */
    var items: seq<T>

    /** `new_stack`: an empty stack. */
    constructor ()
      ensures items == []
    {
      items := [];
    }

    /** `push`: `x` becomes the top; the elements below it are untouched. */
    method Push(x: T)
      modifies this
      ensures items == old(items) + [x]
    {
      items := items + [x];
    }

    /**
     * `pop`: the top is removed and returned; on an empty stack the operation
     * fails and nothing changes.
     */
    method Pop() returns (r: Result<T, StackError>)
      modifies this
      ensures old(items) == [] ==> r == Failure(EmptyStack) && items == old(items)
      ensures old(items) != [] ==>
        r == Success(old(items)[|old(items)| - 1]) && items == old(items)[..|old(items)| - 1]
    {
      if items == [] {
        return Failure(EmptyStack);
      }
      r := Success(items[|items| - 1]);
      items := items[..|items| - 1];
    }

    /** `top`: the most recently pushed element still on the stack. */
    function Top(): (x: T)
      reads this
      requires items != []
      ensures items == items[..|items| - 1] + [x]
    {
      items[|items| - 1]
    }

    /** `is_empty`. */
    function IsEmpty(): (b: bool)
      reads this
      ensures b <==> Size() == 0
    {
      items == []
    }

    /** `size`: the number of elements. */
    function Size(): (n: nat)
      reads this
      ensures n == 0 <==> items == []
    {
      |items|
    }

    /** A `push` followed by a `pop` hands back the pushed element and restores the stack. */
    method PushThenPop(x: T) returns (r: Result<T, StackError>)
      modifies this
      ensures r == Success(x) && items == old(items)
    {
      Push(x);
      r := Pop();
    }
  }
}
