/**
 * The storage port.  Any operation may fail; a failed erase or write may have been carried out
 * for some of the octets, from the lowest address upwards, and even for all of them.
 */
module Storage {
  import opened Words
  import opened Status
  import opened ByteCursor

  class Storage {
    const data: array<u8>

    constructor (size: nat)
      ensures fresh(data) && data.Length == size
      ensures data[..] == Fill(0xFF, size)
    {
      data := new u8[size](_ => 0xFF);
    }

    method AnyFailure() returns (status: Status)
      ensures status != Ok
    {
      status := *;
      if status == Ok {
        status := IoError;
      }
    }

    /** Null targets and requests beyond the end are errors. */
    method Read(offset: nat, target: array?<u8>, size: nat) returns (status: Status)
      requires target != null ==> target != data && size <= target.Length
      modifies if target == null then {} else {target}
      ensures target == null || offset + size > data.Length ==> status == IoError
      ensures status == Ok ==> target[..size] == data[offset..offset + size]
    {
      if target == null || offset + size > data.Length {
        return IoError;
      }
      var fails: bool := *;
      if fails {
        status := AnyFailure();
        return;
      }
      var index := 0;
      while index < size
        invariant 0 <= index <= size && target[..index] == data[offset..offset + index]
        modifies target
      {
        target[index] := data[offset + index];
        index := index + 1;
      }
      status := Ok;
    }

    method Erase(offset: nat, size: nat) returns (status: Status, ghost done: nat)
      modifies data
      ensures offset + size > data.Length ==> status == IoError && data[..] == old(data[..])
      ensures done <= size && (status == Ok ==> done == size)
      ensures offset + size <= data.Length ==> data[..] == Splice(old(data[..]), offset, Fill(0xFF, done))
    {
      done := 0;
      if offset + size > data.Length {
        return IoError, done;
      }
      var limit: nat, fails: bool := *, *;
      if limit > size || !fails {
        limit := size;
      }
      var index := 0;
      while index < limit
        invariant 0 <= index == done <= limit <= size
        invariant data[..] == Splice(old(data[..]), offset, Fill(0xFF, done))
      {
        SpliceGrows(old(data[..]), offset, Fill(0xFF, done), 0xFF);
        assert Fill(0xFF, done) + [0xFF] == Fill(0xFF, done + 1);
        data[offset + index] := 0xFF;
        index, done := index + 1, done + 1;
      }
      if fails {
        status := AnyFailure();
      } else {
        status := Ok;
      }
    }

    method Write(offset: nat, source: array?<u8>, size: nat) returns (status: Status, ghost done: nat)
      requires source != null ==> source != data && size <= source.Length
      modifies data
      ensures source == null || offset + size > data.Length ==> status == IoError && data[..] == old(data[..])
      ensures done <= size && (status == Ok ==> done == size)
      ensures source != null && offset + size <= data.Length ==>
                data[..] == Splice(old(data[..]), offset, source[..done])
    {
      done := 0;
      if source == null || offset + size > data.Length {
        return IoError, done;
      }
      var limit: nat, fails: bool := *, *;
      if limit > size || !fails {
        limit := size;
      }
      var index := 0;
      while index < limit
        invariant 0 <= index == done <= limit <= size
        invariant data[..] == Splice(old(data[..]), offset, source[..done])
      {
        SpliceGrows(old(data[..]), offset, source[..done], source[index]);
        assert source[..done] + [source[index]] == source[..done + 1];
        data[offset + index] := source[index];
        index, done := index + 1, done + 1;
      }
      if fails {
        status := AnyFailure();
      } else {
        status := Ok;
      }
    }
  }
}
