/** The fixed-capacity circular FIFO. */
module RingBuffer {
  import opened Status

  lemma NextIndex(i: nat, capacity: nat)
    requires i < capacity
    ensures (i + 1) % capacity == if i + 1 == capacity then 0 else i + 1
  {
  }

  class FixedRingBuffer<T(0)> {
    const entries: array<T>
    var readIndex: nat
    var writeIndex: nat
    var count: nat

    /** The place of the `i`-th oldest element. */
    function Place(i: nat): nat
      reads this
    {
      if readIndex + i < entries.Length then readIndex + i else readIndex + i - entries.Length
    }

    ghost predicate Valid()
      reads this
    {
      && entries.Length > 0 && readIndex < entries.Length && count <= entries.Length
      && writeIndex == (if count == entries.Length then readIndex else Place(count))
    }

    /** The elements, oldest first. */
    ghost function Contents(): (s: seq<T>)
      requires Valid()
      reads this, entries
      ensures |s| == count
    {
      seq(count, i requires 0 <= i < count reads this, entries requires Valid() => entries[Place(i)])
    }

    constructor (capacity: nat)
      requires capacity > 0
      ensures Valid() && Contents() == [] && entries.Length == capacity && fresh(entries)
    {
      entries := new T[capacity];
      readIndex, writeIndex, count := 0, 0, 0;
    }

    method TryPush(value: T) returns (ok: bool)
      requires Valid()
      modifies this, entries
      ensures Valid() && ok == (|old(Contents())| < entries.Length)
      ensures Contents() == if ok then old(Contents()) + [value] else old(Contents())
    {
      if count == entries.Length {
        return false;
      }
      entries[writeIndex] := value;
      NextIndex(writeIndex, entries.Length);
      writeIndex := (writeIndex + 1) % entries.Length;
      count := count + 1;
      ok := true;
    }

    method TryPop() returns (ok: bool, value: Option<T>)
      requires Valid()
      modifies this
      ensures Valid() && ok == (old(Contents()) != [])
      ensures ok ==> value == Some(old(Contents())[0]) && Contents() == old(Contents())[1..]
      ensures !ok ==> value == None && Contents() == old(Contents())
    {
      if count == 0 {
        return false, None;
      }
      value := Some(entries[readIndex]);
      ok := DropOldest();
    }

    method Peek() returns (ok: bool, value: Option<T>)
      requires Valid()
      ensures ok == (Contents() != [])
      ensures value == if ok then Some(Contents()[0]) else None
    {
      if count == 0 {
        return false, None;
      }
      ok, value := true, Some(entries[readIndex]);
    }

    method DropOldest() returns (ok: bool)
      requires Valid()
      modifies this
      ensures Valid() && ok == (old(Contents()) != [])
      ensures Contents() == if ok then old(Contents())[1..] else old(Contents())
    {
      if count == 0 {
        return false;
      }
      NextIndex(readIndex, entries.Length);
      readIndex := (readIndex + 1) % entries.Length;
      count := count - 1;
      ok := true;
    }

    method Clear()
      requires Valid()
      modifies this
      ensures Valid() && Contents() == []
    {
      readIndex, writeIndex, count := 0, 0, 0;
    }
  }
}
