/** The configuration service itself: methods over arrays, proved against `ConfigDevice`. */
module ConfigService {
  import opened Sequences
  import opened Words
  import opened Crc
  import opened Status
  import opened ByteCursor
  import opened SlotCodec
  import opened SlotTears
  import opened ConfigTable
  import opened ConfigDevice
  import Flash = Storage

  // ---------------------------------------------------------------- C strings

  function CharAt(text: seq<u8>, i: nat): u8 {
    if i < |text| then text[i] else 0
  }

  lemma {:induction false} TextLengthIs(text: seq<u8>, n: nat)
    requires n <= |text| && (forall i :: 0 <= i < n ==> text[i] != 0) && CharAt(text, n) == 0
    ensures |TextOf(text)| == n
    decreases n
  {
    if n > 0 {
      TextLengthIs(text[1..], n - 1);
    }
  }

  lemma {:induction false} TextAtLeast(text: seq<u8>, n: nat)
    requires n <= |text| && forall i :: 0 <= i < n ==> text[i] != 0
    ensures |TextOf(text)| >= n
    decreases n
  {
    if n > 0 {
      TextAtLeast(text[1..], n - 1);
    }
  }

  method TextLength(text: Option<seq<u8>>, capacity: nat) returns (size: nat)
    ensures text.None? ==> size == capacity
    ensures text.Some? ==> size == if |TextOf(text.value)| < capacity then |TextOf(text.value)| else capacity
  {
    if text.None? {
      return capacity;
    }
    size := 0;
    while size < capacity && CharAt(text.value, size) != 0
      invariant 0 <= size <= capacity && size <= |text.value|
      invariant forall i :: 0 <= i < size ==> text.value[i] != 0
    {
      size := size + 1;
    }
    if size < capacity {
      TextLengthIs(text.value, size);
    } else {
      TextAtLeast(text.value, size);
    }
  }

  /** The first `n` characters agree and none of them ends the string. */
  predicate AgreeUpTo(a: seq<u8>, b: seq<u8>, n: nat) {
    n <= |a| && n <= |b| && forall i :: 0 <= i < n ==> a[i] == b[i] && a[i] != 0
  }

  lemma TextsEqual(a: seq<u8>, b: seq<u8>, n: nat)
    requires AgreeUpTo(a, b, n) && CharAt(a, n) == 0 && CharAt(b, n) == 0
    ensures TextOf(a) == TextOf(b) && |TextOf(a)| == n
  {
    TextLengthIs(a, n);
    TextLengthIs(b, n);
    assert forall i :: 0 <= i < n ==> TextOf(a)[i] == a[i] && TextOf(b)[i] == b[i];
  }

  lemma TextEndsEarlier(a: seq<u8>, b: seq<u8>, n: nat)
    requires AgreeUpTo(a, b, n) && CharAt(a, n) == 0 && CharAt(b, n) != 0
    ensures TextOf(a) != TextOf(b)
  {
    TextLengthIs(a, n);
    TextAtLeast(b, n + 1);
  }

  lemma TextsDiffer(a: seq<u8>, b: seq<u8>, n: nat)
    requires AgreeUpTo(a, b, n) && CharAt(a, n) != CharAt(b, n)
    ensures TextOf(a) != TextOf(b)
  {
    if CharAt(a, n) == 0 {
      TextEndsEarlier(a, b, n);
    } else if CharAt(b, n) == 0 {
      TextEndsEarlier(b, a, n);
    } else {
      TextAtLeast(a, n + 1);
      TextAtLeast(b, n + 1);
      assert TextOf(a)[n] == a[n] && TextOf(b)[n] == b[n];
    }
  }

  method TextEqual(left: Option<seq<u8>>, right: Option<seq<u8>>, capacity: nat) returns (equal: bool)
    ensures left.None? || right.None? ==> !equal
    ensures left.Some? && right.Some? ==>
            (equal <==> TextOf(left.value) == TextOf(right.value) && |TextOf(left.value)| < capacity)
  {
    if left.None? || right.None? {
      return false;
    }
    var a, b := left.value, right.value;
    var index := 0;
    while index < capacity
      invariant 0 <= index <= capacity && AgreeUpTo(a, b, index)
    {
      if CharAt(a, index) != CharAt(b, index) {
        TextsDiffer(a, b, index);
        return false;
      }
      if CharAt(a, index) == 0 {
        TextsEqual(a, b, index);
        return true;
      }
      index := index + 1;
    }
    TextAtLeast(a, capacity);
    equal := false;
  }

  lemma {:induction false} TextOfText(text: CString)
    ensures TextOf(text) == text
  {
    if text != [] {
      TextOfText(text[1..]);
    }
  }

  // ---------------------------------------------------------------- slot images

  lemma {:induction false} EntriesGrow(rs: seq<Record>, i: nat)
    requires AllShaped(rs) && i < |rs|
    ensures Entries(rs[..i + 1]) == Entries(rs[..i]) + (if rs[i].used then [EntryOf(rs[i])] else [])
    decreases i
  {
    if i == 0 {
      assert rs[..1] == [rs[0]] && rs[..0] == [] && [rs[0]][1..] == [];
    } else {
      assert rs[..i + 1][1..] == rs[1..][..i] && rs[..i][1..] == rs[1..][..i - 1];
      EntriesGrow(rs[1..], i - 1);
    }
  }

  lemma {:induction false} EncodeGrows(es: seq<Entry>, e: Entry)
    requires AllWritable(es) && Writable(e)
    ensures EncodeEntries(es + [e]) == EncodeEntries(es) + EncodeEntry(e)
  {
    if es == [] {
      assert [e][1..] == [] && es + [e] == [e];
    } else {
      assert (es + [e])[1..] == es[1..] + [e];
      EncodeGrows(es[1..], e);
    }
  }

  /** The scratch buffer with `written` in front and zeros behind. */
  function Padded(written: seq<u8>): (r: seq<u8>)
    requires |written| <= SLOT_BYTES
    ensures |r| == SLOT_BYTES
  {
    written + Fill(0, SLOT_BYTES - |written|)
  }

  lemma SplicePadded(written: seq<u8>, t: seq<u8>)
    requires |written| + |t| <= SLOT_BYTES
    ensures Splice(Padded(written), |written|, t) == Padded(written + t)
  {
  }

  /** The octets of one slot within the device. */
  function SlotOf(data: seq<u8>, slot: nat): (b: seq<u8>)
    requires |data| == 2 * SLOT_BYTES && slot < 2
    ensures |b| == SLOT_BYTES
  {
    if slot == 0 then data[..SLOT_BYTES] else data[SLOT_BYTES..]
  }

  lemma SpliceSlot(data: seq<u8>, slot: nat, t: seq<u8>)
    requires |data| == 2 * SLOT_BYTES && slot < 2 && |t| <= SLOT_BYTES
    ensures var after := Splice(data, slot * SLOT_BYTES, t);
            && SlotOf(after, slot) == t + SlotOf(data, slot)[|t|..]
            && SlotOf(after, 1 - slot) == SlotOf(data, 1 - slot)
  {
    var after := Splice(data, slot * SLOT_BYTES, t);
    if slot == 0 {
      assert SlotOf(after, 0) == t + data[..SLOT_BYTES][|t|..];
    } else {
      assert SlotOf(after, 1) == t + data[SLOT_BYTES..][|t|..];
    }
  }

  /** What a slot holds after rewriting it with `w` ended as `o`. */
  function Rewritten(b: seq<u8>, w: seq<u8>, o: CommitOutcome): (r: seq<u8>)
    requires |b| == SLOT_BYTES && |w| == SLOT_BYTES
    ensures |r| == SLOT_BYTES
  {
    match o
    case Done => w
    case EraseFailed(j) => HalfErased(b, j)
    case WriteFailed(k) => Torn(w, k)
  }

  lemma JoinEntry(written: seq<u8>, e: Entry, w1: seq<u8>, w2: seq<u8>, w3: seq<u8>)
    requires Writable(e) && w1 == written + [|e.key|] && w2 == w1 + [|e.value|] && w3 == w2 + e.key
    ensures w3 + e.value == written + EncodeEntry(e)
  {
  }

  lemma JoinHeader(sequence: u32, count: u8)
    ensures [] + LittleEndian(MAGIC) + LittleEndian(sequence) + [count] == Header(sequence, count)
  {
  }

  lemma PaddedBody(body: seq<u8>)
    requires |body| <= PAYLOAD_BYTES
    ensures Padded(body)[..PAYLOAD_BYTES] == body + Fill(0, PAYLOAD_BYTES - |body|)
  {
  }

  // ---------------------------------------------------------------- decoding in steps

  /** After `es`, decoding `count` records from `start` goes on at `at` with `left` more. */
  predicate Continues(p: seq<u8>, start: nat, count: nat, es: seq<Entry>, at: nat, left: nat) {
    var whole, rest := DecodeEntries(p, start, count), DecodeEntries(p, at, left);
    && (whole.Some? <==> rest.Some?)
    && (whole.Some? ==> whole.value == es + rest.value)
  }

  lemma ContinuesFromStart(p: seq<u8>, start: nat, count: nat)
    ensures Continues(p, start, count, [], start, count)
  {
    var r := DecodeEntries(p, start, count);
    if r.Some? {
      assert [] + r.value == r.value;
    }
  }

  lemma ContinuesStep(p: seq<u8>, start: nat, count: nat, es: seq<Entry>, at: nat, left: nat, next: nat, fewer: nat)
    requires Continues(p, start, count, es, at, left) && left == fewer + 1
    requires DecodeEntry(p, at).Some? && next == at + |EncodeEntry(DecodeEntry(p, at).value)|
    ensures Continues(p, start, count, es + [DecodeEntry(p, at).value], next, fewer)
  {
    var e, rest := DecodeEntry(p, at).value, DecodeEntries(p, next, fewer);
    if rest.Some? {
      assert es + ([e] + rest.value) == es + [e] + rest.value;
    }
  }

  lemma ContinuesBroken(p: seq<u8>, start: nat, count: nat, es: seq<Entry>, at: nat, left: nat)
    requires Continues(p, start, count, es, at, left) && left > 0 && DecodeEntry(p, at).None?
    ensures DecodeEntries(p, start, count).None?
  {
  }

  lemma ContinuesToEnd(p: seq<u8>, start: nat, count: nat, es: seq<Entry>, at: nat)
    requires Continues(p, start, count, es, at, 0)
    ensures DecodeEntries(p, start, count) == Some(es)
  {
    assert es + [] == es;
  }

  lemma RestoredGrows(es: seq<Entry>, e: Entry)
    requires AllStorable(es) && Storable(e) && |es| < RECORD_CAPACITY
    ensures Restored(es + [e]) == Restored(es)[|es| := RecordOf(e)]
  {
  }

  /** State of the decoding loop: `table` holds the records decoded so far. */
  ghost predicate Progress(p: seq<u8>, start: nat, count: nat, table: seq<Record>, es: seq<Entry>, at: nat, left: nat) {
    && AllStorable(es) && |es| + left == count <= RECORD_CAPACITY
    && table == Restored(es) && Continues(p, start, count, es, at, left)
  }

  lemma ProgressStarts(p: seq<u8>, start: nat, count: nat)
    requires count <= RECORD_CAPACITY
    ensures Progress(p, start, count, Restored([]), [], start, count)
  {
    ContinuesFromStart(p, start, count);
  }

  lemma ProgressStep(p: seq<u8>, start: nat, count: nat, table: seq<Record>, es: seq<Entry>, at: nat, left: nat, e: Entry)
    requires Progress(p, start, count, table, es, at, left) && left > 0 && DecodeEntry(p, at) == Some(e)
    ensures Progress(p, start, count, table[|es| := RecordOf(e)], es + [e], at + |EncodeEntry(e)|, left - 1)
  {
    RestoredGrows(es, e);
    ContinuesStep(p, start, count, es, at, left, at + |EncodeEntry(e)|, left - 1);
  }

  /** How the loop ends: with all records, or at one that cannot be decoded. */
  ghost predicate TableDecoded(p: seq<u8>, start: nat, count: nat, ok: bool, table: seq<Record>, es: seq<Entry>) {
    && AllStorable(es) && |es| <= RECORD_CAPACITY && table == Restored(es)
    && DecodeEntries(p, start, count) == if ok then Some(es) else None
  }

  lemma ProgressBreaks(p: seq<u8>, start: nat, count: nat, table: seq<Record>, es: seq<Entry>, at: nat, left: nat)
    requires Progress(p, start, count, table, es, at, left) && left > 0 && DecodeEntry(p, at).None?
    ensures TableDecoded(p, start, count, false, table, es)
  {
    ContinuesBroken(p, start, count, es, at, left);
  }

  lemma ProgressEnds(p: seq<u8>, start: nat, count: nat, table: seq<Record>, es: seq<Entry>, at: nat)
    requires Progress(p, start, count, table, es, at, 0)
    ensures TableDecoded(p, start, count, true, table, es)
  {
    ContinuesToEnd(p, start, count, es, at);
  }

  /** The loop before turn `index`, or after it has failed. */
  ghost predicate Turn(p: seq<u8>, start: nat, count: nat, ok: bool, index: nat, table: seq<Record>, es: seq<Entry>,
                       at: nat)
  {
    if ok then |es| == index <= count && Progress(p, start, count, table, es, at, count - index)
    else TableDecoded(p, start, count, false, table, es)
  }

  lemma FirstTurn(p: seq<u8>, start: nat, count: nat)
    requires count <= RECORD_CAPACITY
    ensures Turn(p, start, count, true, 0, Restored([]), [], start)
  {
    ProgressStarts(p, start, count);
  }

  lemma NextTurn(p: seq<u8>, start: nat, count: nat, index: nat, table: seq<Record>, es: seq<Entry>, at: nat, e: Entry)
    requires Turn(p, start, count, true, index, table, es, at) && index < count && DecodeEntry(p, at) == Some(e)
    ensures index < |table|
    ensures Turn(p, start, count, true, index + 1, table[index := RecordOf(e)], es + [e], at + |EncodeEntry(e)|)
  {
    ProgressStep(p, start, count, table, es, at, count - index, e);
  }

  lemma BrokenTurn(p: seq<u8>, start: nat, count: nat, index: nat, table: seq<Record>, es: seq<Entry>, at: nat)
    requires Turn(p, start, count, true, index, table, es, at) && index < count && DecodeEntry(p, at).None?
    ensures forall now :: Turn(p, start, count, false, index, table, es, now)
  {
    ProgressBreaks(p, start, count, table, es, at, count - index);
  }

  lemma LastTurn(p: seq<u8>, start: nat, count: nat, ok: bool, index: nat, table: seq<Record>, es: seq<Entry>, at: nat)
    requires Turn(p, start, count, ok, index, table, es, at) && (ok ==> index == count)
    ensures TableDecoded(p, start, count, ok, table, es)
  {
    if ok {
      ProgressEnds(p, start, count, table, es, at);
    }
  }

  /** A commit, in terms of the slots it leaves. */
  lemma CommitIs(d: Device, o: CommitOutcome, slots: seq<seq<u8>>)
    requires Formed(d) && |slots| == 2 && slots[d.active] == d.slots[d.active]
    requires slots[Target(d)] == Rewritten(d.slots[Target(d)], Image(d), o)
    ensures CommitStep(d, o) == if o == Done then Device(slots, d.records, NextSequence(d), Target(d))
                                else Device(slots, d.records, d.sequence, d.active)
  {
    assert slots == d.slots[Target(d) := Rewritten(d.slots[Target(d)], Image(d), o)];
  }

  lemma SpliceAll(s: seq<u8>, t: seq<u8>)
    requires |t| == |s|
    ensures Splice(s, 0, t) == t
  {
  }

  /** What `get_u32` makes of what is stored; `before` is the caller's variable. */
  function ReadWord(stored: Option<seq<u8>>, before: u32): (Status, u32) {
    if stored.None? then (NotFound, before)
    else if |stored.value| > 4 then (NoResources, before)
    else if |stored.value| < 4 then (Corrupt, before)
    else (Ok, Word(stored.value))
  }

  /** The same for `get_bool`: one octet, zero or one. */
  function ReadBool(stored: Option<seq<u8>>, before: bool): (Status, bool) {
    if stored.None? then (NotFound, before)
    else if |stored.value| > 1 then (NoResources, before)
    else if stored.value == [0] || stored.value == [1] then (Ok, stored.value == [1])
    else (Corrupt, before)
  }

  /** The record that setting a key changes is the one that is found under it, and no other is concerned. */
  lemma SetPlaces(rs: seq<Record>, key: CString, value: seq<u8>, other: CString)
    requires AllShaped(rs) && SetRecord(rs, key, value).0 == Ok
    ensures var after, i := SetRecord(rs, key, value).1, FindFrom(SetRecord(rs, key, value).1, key, 0);
            && i < |rs| && after[i] == RecordOf(Entry(key, value))
            && (other != key ==>
                  && FindFrom(after, other, 0) == FindFrom(rs, other, 0)
                  && (FindFrom(rs, other, 0) < |rs| ==> after[FindFrom(rs, other, 0)] == rs[FindFrom(rs, other, 0)]))
  {
    var found := FindFrom(rs, key, 0);
    var i := if found < |rs| then found else FreeFrom(rs, 0);
    var after := rs[i := RecordOf(Entry(key, value))];
    EntryOfRecord(Entry(key, value));
    assert Holds(after[i], key) && (other != key ==> !Holds(rs[i], other) && !Holds(after[i], other));
    SameFind(after, key, i);
    if other != key {
      if FindFrom(rs, other, 0) < |rs| {
        SameFind(after, other, FindFrom(rs, other, 0));
      } else {
        SameFind(after, other, |rs|);
      }
    }
  }

  lemma SameFind(rs: seq<Record>, key: CString, i: nat)
    requires AllShaped(rs) && i <= |rs| && (i < |rs| ==> Holds(rs[i], key))
    requires forall j :: 0 <= j < i ==> !Holds(rs[j], key)
    ensures FindFrom(rs, key, 0) == i
  {
  }

  /** A value that was set is what a lookup finds, and only under its own key, in any table whatsoever. */
  lemma SetThenLookup(rs: seq<Record>, key: CString, value: seq<u8>, other: CString)
    requires AllShaped(rs) && SetRecord(rs, key, value).0 == Ok
    ensures Lookup(SetRecord(rs, key, value).1, other) == if other == key then Some(value) else Lookup(rs, other)
  {
    SetPlaces(rs, key, value, other);
    EntryOfRecord(Entry(key, value));
  }

  /** `get_u32` after `set_u32`: the same word, and nothing changes for other keys. */
  lemma WordReadBack(rs: seq<Record>, key: CString, value: u32, other: CString, before: u32)
    requires AllShaped(rs) && SetRecord(rs, key, LittleEndian(value)).0 == Ok
    ensures var after := SetRecord(rs, key, LittleEndian(value)).1;
            ReadWord(Lookup(after, other), before) ==
            if other == key then (Ok, value) else ReadWord(Lookup(rs, other), before)
  {
    SetThenLookup(rs, key, LittleEndian(value), other);
    WordOfLittleEndian(value);
  }

  /** `get_bool` after `set_bool`. */
  lemma BoolReadBack(rs: seq<Record>, key: CString, value: bool, other: CString, before: bool)
    requires AllShaped(rs) && SetRecord(rs, key, [if value then 1 else 0]).0 == Ok
    ensures var after := SetRecord(rs, key, [if value then 1 else 0]).1;
            ReadBool(Lookup(after, other), before) ==
            if other == key then (Ok, value) else ReadBool(Lookup(rs, other), before)
  {
    SetThenLookup(rs, key, [if value then 1 else 0], other);
  }

  /** What `get_u32` reports, in terms of the map: exactly the words that `set_u32` could have stored. */
  lemma WordReadsMap(rs: seq<Record>, key: CString, before: u32)
    requires Clean(rs)
    ensures var (status, value) := ReadWord(Lookup(rs, key), before);
            && (status == Ok <==>
                key in Contents(rs) && Contents(rs)[key] == LittleEndian(value) && |Contents(rs)[key]| == 4)
            && (status == NotFound <==> key !in Contents(rs))
            && (status == NoResources <==> key in Contents(rs) && |Contents(rs)[key]| > 4)
            && (status == Corrupt <==> key in Contents(rs) && |Contents(rs)[key]| < 4)
            && (status != Ok ==> value == before)
  {
    FoundIffMapped(rs, key);
    if key in Contents(rs) && |Contents(rs)[key]| == 4 {
      LittleEndianOfWord(Contents(rs)[key]);
    }
  }

  lemma BoolReadsMap(rs: seq<Record>, key: CString, before: bool)
    requires Clean(rs)
    ensures var (status, value) := ReadBool(Lookup(rs, key), before);
            && (status == Ok <==> key in Contents(rs) && Contents(rs)[key] == [if value then 1 else 0])
            && (status == NotFound <==> key !in Contents(rs))
            && (status == NoResources <==> key in Contents(rs) && |Contents(rs)[key]| > 1)
            && (status == Corrupt <==>
                key in Contents(rs) && |Contents(rs)[key]| <= 1 && Contents(rs)[key] !in {[0], [1]})
            && (status != Ok ==> value == before)
  {
    FoundIffMapped(rs, key);
  }

  /** What reading a slot yields, given the status of reading its octets. */
  ghost predicate SlotReads(b: seq<u8>, read: Status, status: Status, sequence: u32, table: seq<Record>)
    requires |b| == SLOT_BYTES
  {
    && status == SlotStatus(b, read)
    && (status == Ok ==> var s := ReadSlot(b).value; sequence == s.sequence && table == Restored(s.entries))
  }

  /** The selection among two slots that have been read. */
  function Select(d: Device, s0: Status, q0: u32, t0: seq<Record>, s1: Status, q1: u32, t1: seq<Record>): (Status, Device) {
    if s0 != Ok && s1 != Ok then
      if Absent(s0) && Absent(s1) then (Ok, d.(records := Restored([]), sequence := 0, active := 0)) else (IoError, d)
    else if s1 != Ok || (s0 == Ok && q0 >= q1) then (Ok, d.(records := t0, sequence := q0, active := 0))
    else (Ok, d.(records := t1, sequence := q1, active := 1))
  }

  lemma BootSelects(d: Device, r0: Status, s0: Status, q0: u32, t0: seq<Record>,
                    r1: Status, s1: Status, q1: u32, t1: seq<Record>)
    requires Formed(d)
    requires SlotReads(d.slots[0], r0, s0, q0, t0) && SlotReads(d.slots[1], r1, s1, q1, t1)
    ensures BootWith(d, r0, r1) == Select(d, s0, q0, t0, s1, q1, t1)
  {
  }

  lemma BlankSlots(data: seq<u8>)
    requires data == Fill(0xFF, 2 * SLOT_BYTES)
    ensures data[..SLOT_BYTES] == Fill(0xFF, SLOT_BYTES) && data[SLOT_BYTES..] == Fill(0xFF, SLOT_BYTES)
  {
  }

  lemma RecordBuilt(key: seq<u8>, value: seq<u8>)
    requires 1 <= |key| < KEY_CAPACITY && |value| <= VALUE_CAPACITY
    ensures RecordOf(Entry(key, value)) ==
            Record(true, (key + BLANK.key[|key|..])[|key| := 0], value + BLANK.value[|value|..], |value|)
  {
    assert (key + BLANK.key[|key|..])[|key| := 0] == key + Fill(0, KEY_CAPACITY - |key|);
    assert value + BLANK.value[|value|..] == value + Fill(0, VALUE_CAPACITY - |value|);
  }

  // ---------------------------------------------------------------- the service

  class ConfigService {
    const storage: Flash.Storage
    const records: array<Record>
    const scratch: array<u8>
    var sequence: u32
    var activeSlot: nat

    /** Everything that happened to the service. */
    ghost var run: seq<Event>

    ghost predicate Valid()
      reads this`activeSlot, records, storage.data, scratch
    {
      && records.Length == RECORD_CAPACITY && scratch.Length == SLOT_BYTES
      && storage.data.Length == 2 * SLOT_BYTES && storage.data != scratch
      && AllShaped(records[..]) && activeSlot < 2
    }

    /** The state machine this object implements. */
    ghost function State(): (d: Device)
      requires Valid()
      reads this`sequence, this`activeSlot, records, storage.data, scratch
      ensures Formed(d)
    {
      Device([storage.data[..SLOT_BYTES], storage.data[SLOT_BYTES..]], records[..], sequence, activeSlot)
    }

    /** The service is where a new device is after the same events. */
    ghost predicate Tracked()
      requires Valid()
      reads this, records, storage.data, scratch
    {
      State() == After(run)
    }

    constructor (storage: Flash.Storage)
      requires storage.data.Length == 2 * SLOT_BYTES
      ensures Valid() && fresh(records) && fresh(scratch) && this.storage == storage
      ensures State().records == Restored([]) && sequence == 0 && activeSlot == 0 && run == []
      ensures storage.data[..] == Fill(0xFF, 2 * SLOT_BYTES) ==> Tracked()
    {
      this.storage := storage;
      records := new Record[RECORD_CAPACITY](_ => BLANK);
      scratch := new u8[SLOT_BYTES](_ => 0);
      sequence, activeSlot, run := 0, 0, [];
      new;
      assert records[..] == Restored([]);
      if storage.data[..] == Fill(0xFF, 2 * SLOT_BYTES) {
        BlankSlots(storage.data[..]);
      }
    }

    /** Records an event once the state is as it leaves it. */
    ghost method Note(before: Device, e: Event)
      requires Valid() && Formed(before) && State() == Perform(before, e)
      modifies this`run
      ensures run == old(run) + [e] && State() == old(State())
      ensures before == After(old(run)) ==> Tracked()
    {
      assert (run + [e])[..|run|] == run;
      run := run + [e];
    }

    // -------------------------------------------------------------- lookups

    method Find(key: Option<CString>) returns (result: int)
      requires Valid()
      ensures key.None? ==> result == -1
      ensures key.Some? ==> var i := FindFrom(records[..], key.value, 0);
                            result == if i == RECORD_CAPACITY then -1 else i
    {
      var index := 0;
      while index < RECORD_CAPACITY
        invariant 0 <= index <= RECORD_CAPACITY
        invariant key.Some? ==> FindFrom(records[..], key.value, 0) == FindFrom(records[..], key.value, index)
      {
        if records[index].used {
          TextStopsAtNul(records[index].key, KEY_CAPACITY - 1);
          if key.Some? {
            TextOfText(key.value);
          }
          var equal := TextEqual(Some(records[index].key), key, KEY_CAPACITY);
          if equal {
            return index;
          }
        }
        index := index + 1;
      }
      result := -1;
    }

    method FindFree() returns (result: int)
      requires Valid()
      ensures var i := FreeFrom(records[..], 0); result == if i == RECORD_CAPACITY then -1 else i
    {
      var index := 0;
      while index < RECORD_CAPACITY
        invariant 0 <= index <= RECORD_CAPACITY
        invariant FreeFrom(records[..], 0) == FreeFrom(records[..], index)
      {
        if !records[index].used {
          return index;
        }
        index := index + 1;
      }
      result := -1;
    }

    /** What is stored under `key`; nothing under a null key. */
    ghost function Stored(key: Option<CString>): Option<seq<u8>>
      requires Valid()
      reads this`activeSlot, records, storage.data, scratch
    {
      if key.None? then None else Lookup(records[..], key.value)
    }

    /** `size` is the caller's variable: set whenever the key is found, otherwise left alone. */
    method GetBlob(key: Option<CString>, value: array?<u8>, capacity: nat, size: nat)
      returns (status: Status, valueSize: nat)
      requires Valid()
      requires value != null ==> capacity <= value.Length && value != storage.data && value != scratch
      modifies if value == null then {} else {value}
      ensures Valid() && State() == old(State())
      ensures var stored := Stored(key);
              if stored.None? then status == NotFound && valueSize == size
              else
                && valueSize == |stored.value|
                && status == (if value == null || capacity < |stored.value| then NoResources else Ok)
                && (status == Ok ==> value[..] == Splice(old(value[..]), 0, stored.value))
      ensures status != Ok && value != null ==> value[..] == old(value[..])
    {
      var index := Find(key);
      if index < 0 {
        return NotFound, size;
      }
      var record := records[index];
      valueSize := record.valueSize;
      if value == null || capacity < valueSize {
        return NoResources, valueSize;
      }
      CopyOut(record.value[..valueSize], value);
      status := Ok;
    }

    static method CopyOut(stored: seq<u8>, value: array<u8>)
      requires |stored| <= value.Length
      modifies value
      ensures value[..] == Splice(old(value[..]), 0, stored)
    {
      var offset := 0;
      while offset < |stored|
        invariant 0 <= offset <= |stored|
        invariant value[..] == Splice(old(value[..]), 0, stored[..offset])
      {
        SpliceGrows(old(value[..]), 0, stored[..offset], stored[offset]);
        assert stored[..offset] + [stored[offset]] == stored[..offset + 1];
        value[offset] := stored[offset];
        offset := offset + 1;
      }
      assert stored[..|stored|] == stored;
    }

    /** Builds a record in a blank one by copying key and value character by character. */
    static method MakeRecord(key: CString, value: seq<u8>) returns (record: Record)
      requires ValidArguments(key, value)
      ensures record == RecordOf(Entry(key, value))
    {
      var k, v := Fill(0, KEY_CAPACITY), Fill(0, VALUE_CAPACITY);
      var offset := 0;
      while offset < |key|
        invariant 0 <= offset <= |key|
        invariant k == key[..offset] + Fill(0, KEY_CAPACITY - offset)
      {
        k := k[offset := key[offset]];
        offset := offset + 1;
      }
      k := k[|key| := 0];
      offset := 0;
      while offset < |value|
        invariant 0 <= offset <= |value|
        invariant v == value[..offset] + Fill(0, VALUE_CAPACITY - offset)
      {
        v := v[offset := value[offset]];
        offset := offset + 1;
      }
      record := Record(true, k, v, |value|);
    }

    /** Stores the value, without a record of it. */
    method Put(key: Option<CString>, value: Option<seq<u8>>) returns (status: Status)
      requires Valid()
      modifies records
      ensures Valid()
      ensures key.None? || value.None? ==> status == InvalidArgument && State() == old(State())
      ensures key.Some? && value.Some? ==>
              && status == SetRecord(old(records[..]), key.value, value.value).0
              && State() == Perform(old(State()), Set(key.value, value.value))
    {
      if key.Some? {
        TextOfText(key.value);
      }
      var keySize := TextLength(key, KEY_CAPACITY);
      if keySize == 0 || keySize >= KEY_CAPACITY || value.None? || |value.value| > VALUE_CAPACITY {
        return InvalidArgument;
      }
      var index := Find(key);
      if index < 0 {
        index := FindFree();
      }
      if index < 0 {
        return NoResources;
      }
      var record := MakeRecord(key.value, value.value);
      records[index] := record;
      status := Ok;
    }

    /** A null key or value is an invalid argument; otherwise the table changes as specified. */
    method SetBlob(key: Option<CString>, value: Option<seq<u8>>) returns (status: Status)
      requires Valid()
      modifies this`run, records
      ensures Valid() && (old(Tracked()) ==> Tracked())
      ensures key.None? || value.None? ==> status == InvalidArgument && State() == old(State()) && run == old(run)
      ensures key.Some? && value.Some? ==>
              && status == SetRecord(old(records[..]), key.value, value.value).0
              && State() == Perform(old(State()), Set(key.value, value.value))
              && run == old(run) + [Set(key.value, value.value)]
    {
      ghost var before := State();
      status := Put(key, value);
      if key.Some? && value.Some? {
        Note(before, Set(key.value, value.value));
      }
    }

    method Erase(key: Option<CString>) returns (status: Status)
      requires Valid()
      modifies this`run, records
      ensures Valid() && (old(Tracked()) ==> Tracked())
      ensures key.None? ==> status == NotFound && State() == old(State()) && run == old(run)
      ensures key.Some? ==>
              && status == EraseRecord(old(records[..]), key.value).0
              && State() == Perform(old(State()), Unset(key.value))
              && run == old(run) + [Unset(key.value)]
    {
      ghost var before := State();
      var index := Find(key);
      status := NotFound;
      if index >= 0 {
        records[index] := BLANK;
        status := Ok;
      }
      if key.Some? {
        Note(before, Unset(key.value));
      }
    }

    method SetU32(key: Option<CString>, value: u32) returns (status: Status)
      requires Valid()
      modifies this`run, records
      ensures Valid() && (old(Tracked()) ==> Tracked())
      ensures key.None? ==> status == InvalidArgument && State() == old(State()) && run == old(run)
      ensures key.Some? ==>
              && status == SetRecord(old(records[..]), key.value, LittleEndian(value)).0
              && State() == Perform(old(State()), Set(key.value, LittleEndian(value)))
              && run == old(run) + [Set(key.value, LittleEndian(value))]
    {
      var bytes := new u8[4](_ => 0);
      var writer := new ByteWriter(bytes, 0, 4);
      var ok := writer.WriteU32(value);
      assert bytes[..] == LittleEndian(value);
      status := SetBlob(key, Some(bytes[..]));
    }

    /** The value stored little-endian in four octets; anything else is corrupt. */
    method GetU32(key: Option<CString>, before: u32) returns (status: Status, value: u32)
      requires Valid()
      ensures (status, value) == ReadWord(Stored(key), before)
    {
      var bytes := new u8[4](_ => 0);
      ghost var zeros, stored := bytes[..], Stored(key);
      var size;
      status, size := GetBlob(key, bytes, 4, 0);
      if status != Ok {
        return status, before;
      }
      if size != 4 {
        return Corrupt, before;
      }
      SpliceAll(zeros, stored.value);
      value := WordIn(bytes);
      status := Ok;
    }

    static method WordIn(bytes: array<u8>) returns (value: u32)
      requires bytes.Length == 4
      ensures value == Word(bytes[..])
    {
      var reader := new ByteReader(bytes, 0, 4);
      var ok;
      ok, value := reader.ReadU32();
      assert bytes[..4] == bytes[..];
    }

    method SetBool(key: Option<CString>, value: bool) returns (status: Status)
      requires Valid()
      modifies this`run, records
      ensures Valid() && (old(Tracked()) ==> Tracked())
      ensures key.None? ==> status == InvalidArgument && State() == old(State()) && run == old(run)
      ensures key.Some? ==>
              && status == SetRecord(old(records[..]), key.value, [if value then 1 else 0]).0
              && State() == Perform(old(State()), Set(key.value, [if value then 1 else 0]))
              && run == old(run) + [Set(key.value, [if value then 1 else 0])]
    {
      status := SetBlob(key, Some([if value then 1 else 0]));
    }

    /** A single octet zero or one; any other single octet, or none, is corrupt. */
    method GetBool(key: Option<CString>, before: bool) returns (status: Status, value: bool)
      requires Valid()
      ensures (status, value) == ReadBool(Stored(key), before)
    {
      var bytes := new u8[1](_ => 0);
      ghost var zeros, stored := bytes[..], Stored(key);
      var size;
      status, size := GetBlob(key, bytes, 1, 0);
      if status != Ok {
        return status, before;
      }
      if size != 1 {
        return Corrupt, before;
      }
      SpliceAll(zeros, stored.value);
      if bytes[0] > 1 {
        return Corrupt, before;
      }
      value := bytes[0] != 0;
    }

    // -------------------------------------------------------------- what is set is what is got

    /** Sets a word and gets it: a set that succeeds is read back, one that fails changes no reading. */
    method SetAndGetU32(key: CString, value: u32, before: u32) returns (stored: Status, loaded: Status, read: u32)
      requires Valid()
      modifies this`run, records
      ensures Valid() && (old(Tracked()) ==> Tracked())
      ensures stored == Ok ==> loaded == Ok && read == value
      ensures stored != Ok ==> (loaded, read) == ReadWord(old(Stored(Some(key))), before)
    {
      if SetRecord(records[..], key, LittleEndian(value)).0 == Ok {
        WordReadBack(records[..], key, value, key, before);
      }
      stored := SetU32(Some(key), value);
      loaded, read := GetU32(Some(key), before);
    }

    method SetAndGetBool(key: CString, value: bool, before: bool) returns (stored: Status, loaded: Status, read: bool)
      requires Valid()
      modifies this`run, records
      ensures Valid() && (old(Tracked()) ==> Tracked())
      ensures stored == Ok ==> loaded == Ok && read == value
      ensures stored != Ok ==> (loaded, read) == ReadBool(old(Stored(Some(key))), before)
    {
      if SetRecord(records[..], key, [if value then 1 else 0]).0 == Ok {
        BoolReadBack(records[..], key, value, key, before);
      }
      stored := SetBool(Some(key), value);
      loaded, read := GetBool(Some(key), before);
    }

    /** Sets a value and gets it into a buffer of its size. */
    method SetAndGetBlob(key: CString, value: seq<u8>) returns (stored: Status, loaded: Status, read: seq<u8>)
      requires Valid()
      modifies this`run, records
      ensures Valid() && (old(Tracked()) ==> Tracked())
      ensures stored == Ok ==> loaded == Ok && read == value
    {
      if SetRecord(records[..], key, value).0 == Ok {
        SetThenLookup(records[..], key, value, key);
      }
      stored := SetBlob(Some(key), Some(value));
      var buffer := new u8[|value|](_ => 0);
      var size;
      loaded, size := GetBlob(Some(key), buffer, |value|, 0);
      read := buffer[..];
    }

    // -------------------------------------------------------------- slots

    /** Reads one slot into `scratch` and decodes it; a failed read keeps its own status. */
    method ReadSlotInto(slot: nat)
      returns (status: Status, sequence: u32, table: seq<Record>, ghost read: Status)
      requires Valid() && slot < 2
      modifies scratch
      ensures Valid() && State() == old(State())
      ensures |table| == RECORD_CAPACITY && AllShaped(table)
      ensures SlotReads(State().slots[slot], read, status, sequence, table)
    {
      sequence, table := 0, Restored([]);
      var offset := slot * SLOT_BYTES;
      status := storage.Read(offset, scratch, SLOT_BYTES);
      read := status;
      if status != Ok {
        return;
      }
      assert scratch[..] == State().slots[slot];
      status, sequence, table := DecodeScratch();
    }

    /** Checks and decodes the octets of the slot held in `scratch`. */
    method DecodeScratch() returns (status: Status, sequence: u32, table: seq<Record>)
      requires Valid()
      ensures |table| == RECORD_CAPACITY && AllShaped(table)
      ensures SlotReads(scratch[..], Ok, status, sequence, table)
    {
      sequence, table := 0, Restored([]);
      var matches := ChecksumMatches();
      if !matches {
        return Corrupt, sequence, table;
      }
      var decoded;
      decoded, sequence, table := Decode();
      assert scratch[..][..PAYLOAD_BYTES] == scratch[..PAYLOAD_BYTES];
      status := if decoded then Ok else Corrupt;
    }

    method ChecksumMatches() returns (matches: bool)
      requires Valid()
      ensures matches <==> CrcMatches(scratch[..])
    {
      var crcReader := new ByteReader(scratch, PAYLOAD_BYTES, 4);
      var crcOk, storedCrc := crcReader.ReadU32();
      var crc := Crc32(scratch, PAYLOAD_BYTES);
      assert scratch[PAYLOAD_BYTES..PAYLOAD_BYTES + 4] == scratch[..][PAYLOAD_BYTES..];
      assert scratch[..PAYLOAD_BYTES] == scratch[..][..PAYLOAD_BYTES];
      matches := crcOk && storedCrc == crc;
    }

    /** Decodes the payload held in `scratch`. */
    method Decode() returns (ok: bool, sequence: u32, table: seq<Record>)
      requires Valid()
      ensures |table| == RECORD_CAPACITY && AllShaped(table)
      ensures ok == Parse(scratch[..PAYLOAD_BYTES]).Some?
      ensures ok ==> var s := Parse(scratch[..PAYLOAD_BYTES]).value;
                     sequence == s.sequence && table == Restored(s.entries)
    {
      ghost var p := scratch[..PAYLOAD_BYTES];
      table := Restored([]);
      var reader := new ByteReader(scratch, 0, PAYLOAD_BYTES);
      var magic, count;
      ok, magic := reader.ReadU32();
      if ok {
        ok, sequence := reader.ReadU32();
      }
      if ok {
        ok, count := reader.ReadU8();
      }
      SliceOfPrefix(scratch[..], PAYLOAD_BYTES, 0, 4);
      SliceOfPrefix(scratch[..], PAYLOAD_BYTES, 4, 8);
      assert p[..4] == p[0..4];
      if !ok || magic != MAGIC || count > RECORD_CAPACITY {
        return false, sequence, table;
      }
      ghost var entries;
      ok, table, entries := DecodeTable(reader, count);
    }

    /** The loop of `read_slot`: `count` records into a blank table. */
    method DecodeTable(reader: ByteReader, count: nat)
      returns (ok: bool, table: seq<Record>, ghost entries: seq<Entry>)
      requires Valid() && reader.Valid() && count <= RECORD_CAPACITY
      requires reader.data == scratch && reader.base == 0 && reader.size == PAYLOAD_BYTES
      modifies reader`position
      ensures TableDecoded(scratch[..PAYLOAD_BYTES], old(reader.position), count, ok, table, entries)
    {
      ghost var p, start := scratch[..PAYLOAD_BYTES], reader.position;
      table, entries := Restored([]), [];
      var index := 0;
      ok := true;
      FirstTurn(p, start, count);
      while ok && index < count
        invariant reader.Valid() && p == scratch[..PAYLOAD_BYTES] && index <= count
        invariant Turn(p, start, count, ok, index, table, entries, reader.position)
        decreases count - index, ok
      {
        ok, table, entries := DecodeNext(reader, p, start, count, index, table, entries);
        index := if ok then index + 1 else index;
      }
      LastTurn(p, start, count, ok, index, table, entries, reader.position);
    }

    /** One turn of that loop. */
    method DecodeNext(reader: ByteReader, ghost p: seq<u8>, ghost start: nat, ghost count: nat,
                      index: nat, before: seq<Record>, ghost es: seq<Entry>)
      returns (ok: bool, table: seq<Record>, ghost entries: seq<Entry>)
      requires Valid() && reader.Valid() && p == scratch[..PAYLOAD_BYTES]
      requires reader.data == scratch && reader.base == 0 && reader.size == PAYLOAD_BYTES
      requires index < count && Turn(p, start, count, true, index, before, es, reader.position)
      modifies reader`position
      ensures reader.Valid()
      ensures Turn(p, start, count, ok, if ok then index + 1 else index, table, entries, reader.position)
    {
      ghost var at := reader.position;
      table, entries := before, es;
      var record;
      ok, record := DecodeRecord(reader, p);
      if !ok {
        BrokenTurn(p, start, count, index, table, entries, at);
        return;
      }
      ghost var e := DecodeEntry(p, at).value;
      NextTurn(p, start, count, index, table, entries, at, e);
      table, entries := table[index := record], entries + [e];
    }

    /** Reads one record: sizes, then key and value into the buffers of a blank record. */
    method DecodeRecord(reader: ByteReader, ghost p: seq<u8>) returns (ok: bool, record: Record)
      requires Valid() && reader.Valid() && p == scratch[..PAYLOAD_BYTES]
      requires reader.data == scratch && reader.base == 0 && reader.size == PAYLOAD_BYTES
      modifies reader`position
      ensures reader.Valid() && Shaped(record)
      ensures var e := DecodeEntry(p, old(reader.position));
              && ok == e.Some?
              && (ok ==> record == RecordOf(e.value))
              && (ok ==> reader.position == old(reader.position) + |EncodeEntry(e.value)|)
    {
      record := BLANK;
      ghost var at := reader.position;
      var keySize, valueSize;
      ok, keySize := reader.ReadU8();
      if !ok {
        return;
      }
      ok, valueSize := reader.ReadU8();
      if !ok || keySize == 0 || keySize >= KEY_CAPACITY || valueSize > VALUE_CAPACITY {
        return false, record;
      }
      var key, value;
      ok, key, value := ReadFields(reader, keySize, valueSize, p);
      if !ok {
        return;
      }
      record := Record(true, key[keySize := 0], value, valueSize);
      RecordBuilt(p[at + 2..at + 2 + keySize], p[at + 2 + keySize..at + 2 + keySize + valueSize]);
    }

    /** Reads key and value into blank buffers. */
    method ReadFields(reader: ByteReader, keySize: nat, valueSize: nat, ghost p: seq<u8>)
      returns (ok: bool, key: seq<u8>, value: seq<u8>)
      requires Valid() && reader.Valid() && p == scratch[..PAYLOAD_BYTES]
      requires reader.data == scratch && reader.base == 0 && reader.size == PAYLOAD_BYTES
      requires keySize <= KEY_CAPACITY && valueSize <= VALUE_CAPACITY
      modifies reader`position
      ensures reader.Valid() && ok == (old(reader.position) + keySize + valueSize <= PAYLOAD_BYTES)
      ensures |key| == KEY_CAPACITY && |value| == VALUE_CAPACITY
      ensures var at := old(reader.position);
              ok ==>
                && key == p[at..at + keySize] + BLANK.key[keySize..]
                && value == p[at + keySize..at + keySize + valueSize] + BLANK.value[valueSize..]
                && reader.position == at + keySize + valueSize
    {
      ghost var at := reader.position;
      var keyBuffer := new u8[KEY_CAPACITY](_ => 0);
      var valueBuffer := new u8[VALUE_CAPACITY](_ => 0);
      assert keyBuffer[..] == BLANK.key && valueBuffer[..] == BLANK.value;
      assert keyBuffer[keySize..] == BLANK.key[keySize..] && valueBuffer[valueSize..] == BLANK.value[valueSize..];
      ok := reader.ReadBytes(keyBuffer, keySize);
      if ok {
        ok := reader.ReadBytes(valueBuffer, valueSize);
      }
      if ok {
        SliceOfPrefix(scratch[..], PAYLOAD_BYTES, at, at + keySize);
        SliceOfPrefix(scratch[..], PAYLOAD_BYTES, at + keySize, at + keySize + valueSize);
      }
      key, value := keyBuffer[..], valueBuffer[..];
    }

    /** Reads both slots and adopts the newer table, without a record of it. */
    method Load() returns (status: Status, ghost read0: Status, ghost read1: Status)
      requires Valid()
      modifies this`sequence, this`activeSlot, records, scratch
      ensures Valid()
      ensures (status, State()) == BootWith(old(State()), read0, read1)
    {
      var firstStatus, firstSequence, firstTable;
      firstStatus, firstSequence, firstTable, read0 := ReadSlotInto(0);
      var secondStatus, secondSequence, secondTable;
      secondStatus, secondSequence, secondTable, read1 := ReadSlotInto(1);
      BootSelects(State(), read0, firstStatus, firstSequence, firstTable,
                  read1, secondStatus, secondSequence, secondTable);
      if firstStatus != Ok && secondStatus != Ok {
        if (firstStatus != Corrupt && firstStatus != NotFound) || (secondStatus != Corrupt && secondStatus != NotFound) {
          return IoError, read0, read1;
        }
        Adopt(Restored([]), 0, 0);
        return Ok, read0, read1;
      }
      var useFirst := secondStatus != Ok || (firstStatus == Ok && firstSequence >= secondSequence);
      if useFirst {
        Adopt(firstTable, firstSequence, 0);
      } else {
        Adopt(secondTable, secondSequence, 1);
      }
      status := Ok;
    }

    method Initialize() returns (status: Status, ghost read0: Status, ghost read1: Status)
      requires Valid()
      modifies this`sequence, this`activeSlot, this`run, records, scratch
      ensures Valid() && (old(Tracked()) ==> Tracked())
      ensures (status, State()) == BootWith(old(State()), read0, read1)
      ensures run == old(run) + [Boot(read0, read1)]
    {
      ghost var before := State();
      status, read0, read1 := Load();
      Note(before, Boot(read0, read1));
    }

    method Adopt(table: seq<Record>, newSequence: u32, slot: nat)
      requires Valid() && |table| == RECORD_CAPACITY && AllShaped(table) && slot < 2
      modifies this`sequence, this`activeSlot, records
      ensures Valid()
      ensures State() == old(State()).(records := table, sequence := newSequence, active := slot)
    {
      activeSlot := slot;
      sequence := newSequence;
      CopyTable(table);
    }

    method CopyTable(table: seq<Record>)
      requires Valid() && |table| == RECORD_CAPACITY && AllShaped(table)
      modifies records
      ensures Valid() && records[..] == table
    {
      var index := 0;
      while index < RECORD_CAPACITY
        invariant 0 <= index <= RECORD_CAPACITY
        invariant records[..index] == table[..index]
        invariant AllShaped(records[..])
      {
        records[index] := table[index];
        index := index + 1;
      }
    }

    // -------------------------------------------------------------- commits

    /** Appends octets that have room to the octets written so far. */
    method Append(writer: ByteWriter, value: seq<u8>, size: nat, ghost written: seq<u8>) returns (ok: bool)
      requires Valid() && writer.Valid() && size <= |value|
      requires writer.data == scratch && writer.base == 0 && writer.capacity == PAYLOAD_BYTES
      requires |written| == writer.position && |written| + size <= PAYLOAD_BYTES
      requires scratch[..] == Padded(written)
      modifies writer`position, writer`overflow, scratch
      ensures ok && writer.Valid() && writer.position == |written| + size
      ensures scratch[..] == Padded(written + value[..size])
    {
      ok := writer.WriteBytes(Some(value), size);
      SplicePadded(written, value[..size]);
    }

    /** Appends one octet. */
    method AppendOctet(writer: ByteWriter, value: u8, ghost written: seq<u8>) returns (ok: bool)
      requires Valid() && writer.Valid()
      requires writer.data == scratch && writer.base == 0 && writer.capacity == PAYLOAD_BYTES
      requires |written| == writer.position < PAYLOAD_BYTES && scratch[..] == Padded(written)
      modifies writer`position, writer`overflow, scratch
      ensures ok && writer.Valid() && writer.position == |written| + 1
      ensures scratch[..] == Padded(written + [value])
    {
      ok := writer.WriteU8(value);
      SplicePadded(written, [value]);
    }

    /** Appends a little-endian word. */
    method AppendWord(writer: ByteWriter, value: u32, ghost written: seq<u8>) returns (ok: bool)
      requires Valid() && writer.Valid()
      requires writer.data == scratch && writer.base == 0 && writer.capacity == PAYLOAD_BYTES
      requires |written| == writer.position && |written| + 4 <= PAYLOAD_BYTES && scratch[..] == Padded(written)
      modifies writer`position, writer`overflow, scratch
      ensures ok && writer.Valid() && writer.position == |written| + 4
      ensures scratch[..] == Padded(written + LittleEndian(value))
    {
      ok := writer.WriteU32(value);
      SplicePadded(written, LittleEndian(value));
    }

    /** Appends one record; there is always room for it. */
    method EncodeRecord(writer: ByteWriter, record: Record, ghost written: seq<u8>) returns (ok: bool)
      requires Valid() && writer.Valid() && Shaped(record)
      requires writer.data == scratch && writer.base == 0 && writer.capacity == PAYLOAD_BYTES
      requires |written| == writer.position && |written| + |EncodeEntry(EntryOf(record))| <= PAYLOAD_BYTES
      requires scratch[..] == Padded(written)
      modifies writer`position, writer`overflow, scratch
      ensures ok && writer.Valid()
      ensures writer.position == |written| + |EncodeEntry(EntryOf(record))|
      ensures scratch[..] == Padded(written + EncodeEntry(EntryOf(record)))
    {
      var keySize := TextLength(Some(record.key), KEY_CAPACITY);
      ghost var e := EntryOf(record);
      ghost var w1 := written + [keySize];
      ghost var w2 := w1 + [record.valueSize];
      ghost var w3 := w2 + record.key[..keySize];
      JoinEntry(written, e, w1, w2, w3);
      ok := AppendOctet(writer, keySize, written);
      if ok {
        ok := AppendOctet(writer, record.valueSize, w1);
      }
      if ok {
        ok := Append(writer, record.key, keySize, w2);
      }
      if ok {
        ok := Append(writer, record.value, record.valueSize, w3);
      }
    }

    /** Builds the image of the table in `scratch`, checksum included. */
    method BuildImage(sequence: u32) returns (ok: bool)
      requires Valid()
      modifies scratch
      ensures ok && Valid() && scratch[..] == Slot(sequence, Entries(records[..]))
    {
      ok := EncodeBody(sequence);
      ghost var p := Payload(sequence, Entries(records[..]));
      if ok {
        PaddedBody(Body(sequence, Entries(records[..])));
        assert scratch[..PAYLOAD_BYTES] == p;
        var crc := Crc32(scratch, PAYLOAD_BYTES);
        var crcWriter := new ByteWriter(scratch, PAYLOAD_BYTES, 4);
        ok := crcWriter.WriteU32(crc);
        assert scratch[..] == p + LittleEndian(Checksum32(p));
      }
    }

    method EncodeBody(sequence: u32) returns (ok: bool)
      requires Valid()
      modifies scratch
      ensures ok && Valid() && scratch[..] == Padded(Body(sequence, Entries(records[..])))
    {
      ClearScratch();
      var count := CountUsed();
      var writer := new ByteWriter(scratch, 0, PAYLOAD_BYTES);
      ghost var w1 := [] + LittleEndian(MAGIC);
      ghost var w2 := w1 + LittleEndian(sequence);
      assert Padded([]) == scratch[..];
      JoinHeader(sequence, count);
      ok := AppendWord(writer, MAGIC, []);
      if ok {
        ok := AppendWord(writer, sequence, w1);
      }
      if ok {
        ok := AppendOctet(writer, count, w2);
      }
      if ok {
        ok := EncodeTable(writer, Header(sequence, count));
      }
    }

    method ClearScratch()
      requires Valid()
      modifies scratch
      ensures Valid() && scratch[..] == Fill(0, SLOT_BYTES)
    {
      var index := 0;
      while index < SLOT_BYTES
        invariant 0 <= index <= SLOT_BYTES && scratch[..index] == Fill(0, index)
      {
        scratch[index] := 0;
        index := index + 1;
      }
    }

    method CountUsed() returns (count: nat)
      requires Valid()
      ensures count == |Entries(records[..])|
    {
      count := 0;
      var index := 0;
      while index < RECORD_CAPACITY
        invariant 0 <= index <= RECORD_CAPACITY && count == |Entries(records[..index])|
      {
        EntriesGrow(records[..], index);
        assert records[..][..index] == records[..index] && records[..][..index + 1] == records[..index + 1];
        if records[index].used {
          count := count + 1;
        }
        index := index + 1;
      }
      assert records[..RECORD_CAPACITY] == records[..];
    }

    /** The loop of `write_slot` over the used records. */
    method EncodeTable(writer: ByteWriter, ghost header: seq<u8>) returns (ok: bool)
      requires Valid() && writer.Valid()
      requires writer.data == scratch && writer.base == 0 && writer.capacity == PAYLOAD_BYTES
      requires |header| == writer.position == HEADER_BYTES && scratch[..] == Padded(header)
      modifies writer`position, writer`overflow, scratch
      ensures ok && scratch[..] == Padded(header + EncodeEntries(Entries(records[..])))
    {
      ok := true;
      var index := 0;
      while ok && index < RECORD_CAPACITY
        invariant 0 <= index <= RECORD_CAPACITY && ok
        invariant writer.Valid()
        invariant var written := header + EncodeEntries(Entries(records[..index]));
                  writer.position == |written| && scratch[..] == Padded(written)
      {
        ghost var es := Entries(records[..index]);
        EntriesGrow(records[..], index);
        assert records[..][..index] == records[..index] && records[..][..index + 1] == records[..index + 1];
        if records[index].used {
          EncodeGrows(es, EntryOf(records[index]));
          ghost var written := header + EncodeEntries(es);
          ok := EncodeRecord(writer, records[index], written);
          Associate(header, EncodeEntries(es), EncodeEntry(EntryOf(records[index])));
        } else {
          assert es + [] == es;
        }
        index := index + 1;
      }
      assert records[..RECORD_CAPACITY] == records[..];
    }

    method WriteSlot(slot: nat, sequence: u32) returns (status: Status, ghost outcome: CommitOutcome)
      requires Valid() && slot < 2
      modifies scratch, storage.data
      ensures Valid() && (status == Ok <==> outcome == Done)
      ensures var b := Rewritten(SlotOf(old(storage.data[..]), slot), Slot(sequence, Entries(records[..])), outcome);
              && SlotOf(storage.data[..], slot) == b
              && SlotOf(storage.data[..], 1 - slot) == SlotOf(old(storage.data[..]), 1 - slot)
    {
      outcome := EraseFailed(0);
      var ok := BuildImage(sequence);
      if !ok {
        return NoResources, outcome;
      }
      ghost var done;
      status, done := EraseSlot(slot);
      if status != Ok {
        outcome := EraseFailed(done);
        return;
      }
      status, outcome := StoreImage(slot);
    }

    method EraseSlot(slot: nat) returns (status: Status, ghost done: SlotSize)
      requires Valid() && slot < 2
      modifies storage.data
      ensures Valid() && (status == Ok ==> done == SLOT_BYTES)
      ensures SlotOf(storage.data[..], slot) == HalfErased(SlotOf(old(storage.data[..]), slot), done)
      ensures SlotOf(storage.data[..], 1 - slot) == SlotOf(old(storage.data[..]), 1 - slot)
    {
      ghost var before := storage.data[..];
      status, done := storage.Erase(slot * SLOT_BYTES, SLOT_BYTES);
      SpliceSlot(before, slot, Fill(0xFF, done));
    }

    /** Stores the image in `scratch` in an erased slot. */
    method StoreImage(slot: nat) returns (status: Status, ghost outcome: CommitOutcome)
      requires Valid() && slot < 2 && SlotOf(storage.data[..], slot) == Fill(0xFF, SLOT_BYTES)
      modifies storage.data
      ensures Valid() && (status == Ok <==> outcome == Done) && !outcome.EraseFailed?
      ensures SlotOf(storage.data[..], slot) == Rewritten(SlotOf(old(storage.data[..]), slot), scratch[..], outcome)
      ensures SlotOf(storage.data[..], 1 - slot) == SlotOf(old(storage.data[..]), 1 - slot)
    {
      ghost var w, erased, done := scratch[..], storage.data[..], 0;
      status, done := storage.Write(slot * SLOT_BYTES, scratch, SLOT_BYTES);
      SpliceSlot(erased, slot, w[..done]);
      assert SlotOf(storage.data[..], slot) == Torn(w, done);
      outcome := if status == Ok then Done else WriteFailed(done);
      assert Torn(w, SLOT_BYTES) == w;
    }

    /** Writes the standby slot and moves on to it if that is completed, without a record of it. */
    method Advance() returns (status: Status, ghost outcome: CommitOutcome)
      requires Valid()
      modifies this`sequence, this`activeSlot, scratch, storage.data
      ensures Valid() && (status == Ok <==> outcome == Done)
      ensures State() == CommitStep(old(State()), outcome)
    {
      var targetSlot := if activeSlot == 0 then 1 else 0;
      var next := Successor(sequence);
      ghost var before := State();
      status, outcome := WriteSlot(targetSlot, next);
      CommitIs(before, outcome, State().slots);
      if status == Ok {
        activeSlot := targetSlot;
        sequence := Successor(sequence);
      }
    }

    /** Commits to the standby slot; only a completed write moves on to it. */
    method Commit() returns (status: Status, ghost outcome: CommitOutcome)
      requires Valid()
      modifies this`sequence, this`activeSlot, this`run, scratch, storage.data
      ensures Valid() && (status == Ok <==> outcome == Done) && (old(Tracked()) ==> Tracked())
      ensures State() == CommitStep(old(State()), outcome) && run == old(run) + [Event.Commit(outcome)]
    {
      ghost var before := State();
      status, outcome := Advance();
      Note(before, Event.Commit(outcome));
    }
  }
}
