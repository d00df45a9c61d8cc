/**
 * The folder stack of the C renamer (renamer.c and old/renamer.c): STACKSIZE
 * rows of WORDSIZE characters and a size counter. push stores the path
 * "x/y" (or y alone) on top, pop hands back the top row.
 *
 * Each row is modelled by the string it holds. The stack's contents are
 * items[..size]; Pushed and Popped state push and pop on those contents.
 */
module PathStack {
  import opened Wrappers

  const StackSize := 256
  const WordSize := 256

  /** The path push builds: x, a '/', then y; or y alone when x is NULL. */
  function PathOf(x: Option<string>, y: string): (p: string)
    ensures x.None? ==> p == y
    ensures x.Some? ==> |p| == |x.value| + 1 + |y| && p[..|x.value|] == x.value &&
                        p[|x.value|] == '/' && p[|x.value| + 1..] == y
  {
    match x
    case None => y
    case Some(dir) => dir + "/" + y
  }

  /** The contents after push: p on top while there is room, no change on a full stack. */
  function Pushed(items: seq<string>, p: string): seq<string>
  {
    if |items| == StackSize then items else items + [p]
  }

  /** The contents after pop and the row it returns; NULL on an empty stack. */
  function Popped(items: seq<string>): (seq<string>, Option<string>)
  {
    if items == [] then (items, None) else (items[..|items| - 1], Some(items[|items| - 1]))
  }

  /** A stack never holds more than STACKSIZE rows. */
  lemma PushedBounded(items: seq<string>, p: string)
    requires |items| <= StackSize
    ensures |Pushed(items, p)| <= StackSize
    ensures |items| < StackSize ==> |Pushed(items, p)| == |items| + 1
    ensures |items| == StackSize ==> Pushed(items, p) == items
  {
  }

  /** Last in, first out: pop after a push that had room returns the pushed path. */
  lemma PopAfterPush(items: seq<string>, p: string)
    requires |items| < StackSize
    ensures Popped(Pushed(items, p)) == (items, Some(p))
  {
    assert (items + [p])[..|items|] == items;
  }

  /** Pushing back what pop returned restores the stack. */
  lemma PushAfterPop(items: seq<string>)
    requires 0 < |items| <= StackSize
    ensures Popped(items).1.Some?
    ensures Pushed(Popped(items).0, Popped(items).1.value) == items
  {
    assert items[..|items| - 1] + [items[|items| - 1]] == items;
  }

  class Stack {
    var size: int
    const items: array<string>

    ghost predicate Valid()
      reads this
    {
      items.Length == StackSize && 0 <= size <= StackSize
    }

    ghost function Contents(): seq<string>
      reads this, items
      requires Valid()
    {
      items[..size]
    }

    /** An empty stack. */
    constructor ()
      ensures Valid() && Contents() == []
    {
      items := new string[StackSize];
      size := 0;
    }

    /**
     * push(s, x, y): on a stack with room, the path goes into row size and
     * size grows by one; a full stack reports an overflow and is left as it
     * is. The row has WORDSIZE characters, so the path and its NUL must fit.
     */
    method Push(x: Option<string>, y: string)
      requires Valid() && |PathOf(x, y)| < WordSize
      modifies this, items
      ensures Valid() && Contents() == Pushed(old(Contents()), PathOf(x, y))
    {
      if size == StackSize {
        return;
      }
      items[size] := PathOf(x, y);
      size := size + 1;
    }

    /** pop(s): NULL on an empty stack; otherwise size drops by one and row size is returned. */
    method Pop() returns (top: Option<string>)
      requires Valid()
      modifies this
      ensures Valid() && (Contents(), top) == Popped(old(Contents()))
    {
      if size == 0 {
        return None;
      }
      size := size - 1;
      top := Some(items[size]);
      assert Contents() == old(Contents())[..size];
    }
  }

  // ---------------------------------------------------------------------
  // push as written: size grows even when the stack is full

  /** The size counter and rows of a stack, as push leaves them. */
  datatype Rows = Rows(size: int, items: seq<string>)

  /**
   * push as the C code has it: the row is written only below STACKSIZE, but
   * size++ runs on every call. None is a write outside the rows.
   */
  function PushAsWritten(st: Rows, p: string): (r: Option<Rows>)
    requires |st.items| == StackSize && 0 <= st.size
    ensures r.Some? ==> r.value.size == st.size + 1 && |r.value.items| == StackSize
  {
    if st.size == StackSize then Some(Rows(st.size + 1, st.items))
    else if st.size < StackSize then Some(Rows(st.size + 1, st.items[st.size := p]))
    else None
  }

  /**
   * On a full stack, push as written leaves size at STACKSIZE + 1; the next
   * push then writes past the last row, and pop would read past it.
   */
  lemma PushAsWrittenOverruns(items: seq<string>, p: string, q: string)
    requires |items| == StackSize
    ensures PushAsWritten(Rows(StackSize, items), p) == Some(Rows(StackSize + 1, items))
    ensures PushAsWritten(Rows(StackSize + 1, items), q) == None
  {
  }
}
