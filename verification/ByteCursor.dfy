/** Bounded little-endian reading from, and writing into, a caller's array. */
module ByteCursor {
  import opened Words
  import opened Status

  /** `s` with the octets from `at` on replaced by `t`. */
  function Splice(s: seq<u8>, at: nat, t: seq<u8>): (r: seq<u8>)
    requires at + |t| <= |s|
    ensures |r| == |s|
  {
    s[..at] + t + s[at + |t|..]
  }

  lemma SpliceGrows(s: seq<u8>, at: nat, t: seq<u8>, x: u8)
    requires at + |t| < |s|
    ensures Splice(s, at, t)[at + |t| := x] == Splice(s, at, t + [x])
  {
  }

  class ByteWriter {
    const data: array<u8>
    const base: nat
    const capacity: nat
    var position: nat
    var overflow: bool

    ghost predicate Valid()
      reads this
    {
      base + capacity <= data.Length && position <= capacity
    }

    constructor (data: array<u8>, base: nat, capacity: nat)
      requires base + capacity <= data.Length
      ensures Valid() && position == 0 && !overflow
      ensures this.data == data && this.base == base && this.capacity == capacity
    {
      this.data, this.base, this.capacity := data, base, capacity;
      position, overflow := 0, false;
    }

    /** Writes the first `size` octets of `value`; nothing at all if it is null or they do not fit. */
    method WriteBytes(value: Option<seq<u8>>, size: nat) returns (ok: bool)
      requires Valid() && (value.Some? ==> size <= |value.value|)
      modifies this`position, this`overflow, data
      ensures Valid() && ok == (value.Some? && old(position) + size <= capacity)
      ensures overflow == (old(overflow) || !ok)
      ensures ok ==> position == old(position) + size
      ensures ok ==> data[..] == Splice(old(data[..]), base + old(position), value.value[..size])
      ensures !ok ==> position == old(position) && data[..] == old(data[..])
    {
      if value.None? || position + size > capacity {
        overflow := true;
        return false;
      }
      var octets := value.value;
      var index := 0;
      ghost var start := position;
      while index < size
        invariant 0 <= index <= size && position == start + index
        invariant data[..] == Splice(old(data[..]), base + start, octets[..index])
        invariant overflow == old(overflow)
      {
        SpliceGrows(old(data[..]), base + start, octets[..index], octets[index]);
        assert octets[..index] + [octets[index]] == octets[..index + 1];
        data[base + position] := octets[index];
        position := position + 1;
        index := index + 1;
      }
      ok := true;
    }

    method WriteU8(value: u8) returns (ok: bool)
      requires Valid()
      modifies this`position, this`overflow, data
      ensures Valid() && ok == (old(position) + 1 <= capacity)
      ensures overflow == (old(overflow) || !ok)
      ensures ok ==> position == old(position) + 1
      ensures ok ==> data[..] == Splice(old(data[..]), base + old(position), [value])
      ensures !ok ==> position == old(position) && data[..] == old(data[..])
    {
      ok := WriteBytes(Some([value]), 1);
      assert [value][..1] == [value];
    }

    method WriteU32(value: u32) returns (ok: bool)
      requires Valid()
      modifies this`position, this`overflow, data
      ensures Valid() && ok == (old(position) + 4 <= capacity)
      ensures overflow == (old(overflow) || !ok)
      ensures ok ==> position == old(position) + 4
      ensures ok ==> data[..] == Splice(old(data[..]), base + old(position), LittleEndian(value))
      ensures !ok ==> position == old(position) && data[..] == old(data[..])
    {
      var bytes := LittleEndian(value);
      ok := WriteBytes(Some(bytes), 4);
      assert bytes[..4] == bytes;
    }
  }

  class ByteReader {
    const data: array<u8>
    const base: nat
    const size: nat
    var position: nat

    ghost predicate Valid()
      reads this
    {
      base + size <= data.Length && position <= size
    }

    constructor (data: array<u8>, base: nat, size: nat)
      requires base + size <= data.Length
      ensures Valid() && position == 0
      ensures this.data == data && this.base == base && this.size == size
    {
      this.data, this.base, this.size := data, base, size;
      position := 0;
    }

    /** Reads the next `count` octets into `target`; nothing at all if it is null or there are fewer. */
    method ReadBytes(target: array?<u8>, count: nat) returns (ok: bool)
      requires Valid() && (target != null ==> target != data && count <= target.Length)
      modifies this`position
      modifies if target == null then {} else {target}
      ensures Valid() && ok == (target != null && old(position) + count <= size)
      ensures ok ==> position == old(position) + count
      ensures ok ==> target[..] == data[base + old(position)..base + old(position) + count] + old(target[count..])
      ensures !ok ==> position == old(position) && (target != null ==> target[..] == old(target[..]))
    {
      if target == null || position + count > size {
        return false;
      }
      var index := 0;
      ghost var start := position;
      while index < count
        invariant 0 <= index <= count && position == start + index
        invariant target[..index] == data[base + start..base + start + index]
        invariant target[count..] == old(target[count..])
      {
        target[index] := data[base + position];
        position := position + 1;
        index := index + 1;
      }
      ok := true;
    }

    method ReadU8() returns (ok: bool, value: u8)
      requires Valid()
      modifies this`position
      ensures Valid() && ok == (old(position) + 1 <= size)
      ensures ok ==> position == old(position) + 1 && value == data[base + old(position)]
      ensures !ok ==> position == old(position) && value == 0
    {
      var bytes := new u8[1](_ => 0);
      ok := ReadBytes(bytes, 1);
      value := bytes[0];
    }

    method ReadU32() returns (ok: bool, value: u32)
      requires Valid()
      modifies this`position
      ensures Valid() && ok == (old(position) + 4 <= size)
      ensures ok ==> position == old(position) + 4
      ensures ok ==> value == Word(data[base + old(position)..base + old(position) + 4])
      ensures !ok ==> position == old(position) && value == 0
    {
      var bytes := new u8[4](_ => 0);
      ok := ReadBytes(bytes, 4);
      value := if ok then Word(bytes[..]) else 0;
    }
  }
}
