/** The fixed-size character FIFO of kernel/src/ringbuf.c. */
module RingBuffer {

  const CAPACITY: nat := 128

  /** Position `i` behind `tail` in the circular array. */
  function Slot(tail: nat, i: nat): (s: nat)
    ensures s < CAPACITY
  {
    (tail + i) % CAPACITY
  }

  class RingBuf {
    const data: array<char>
    var head: nat
    var tail: nat
    var count: nat

    ghost predicate Valid()
      reads this
    {
      data.Length == CAPACITY && tail < CAPACITY && count <= CAPACITY && head == Slot(tail, count)
    }

    /** The buffered characters, oldest first. */
    ghost function Contents(): (s: seq<char>)
      requires Valid()
      reads this, data
      ensures |s| == count
    {
      seq(count, i requires 0 <= i < count reads this, data requires data.Length == CAPACITY => data[Slot(tail, i)])
    }

    constructor ()
      ensures Valid() && fresh(data) && Contents() == []
    {
      data := new char[CAPACITY];
      head, tail, count := 0, 0, 0;
    }

    /** A full buffer refuses the character and keeps its contents. */
    method Push(c: char) returns (ok: bool)
      requires Valid()
      modifies this, data
      ensures Valid() && (ok <==> old(|Contents()|) < CAPACITY)
      ensures Contents() == if ok then old(Contents()) + [c] else old(Contents())
    {
      if count == CAPACITY { return false; }
      ghost var before := Contents();
      data[head] := c;
      head := (head + 1) % CAPACITY;
      count := count + 1;
      assert forall i :: 0 <= i < count - 1 ==> Slot(tail, i) != Slot(tail, count - 1);
      assert Contents() == before + [c];
      return true;
    }

    method Pop() returns (ok: bool, c: char)
      requires Valid()
      modifies this
      ensures Valid() && (ok <==> old(Contents()) != [])
      ensures ok ==> old(Contents()) == [c] + Contents()
      ensures !ok ==> Contents() == []
    {
      if count == 0 { return false, '\0'; }
      ghost var before := Contents();
      ok, c := true, data[tail];
      assert c == before[0];
      tail := (tail + 1) % CAPACITY;
      count := count - 1;
      assert forall i :: 0 <= i < count ==> Slot(tail, i) == Slot(old(tail), i + 1);
      assert before == [c] + Contents();
    }
  }
}
