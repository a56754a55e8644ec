/**
 * The configuration table in RAM: a fixed array of records that stands for a partial map
 * from keys to values.
 */
module ConfigTable {
  import opened Words
  import opened Status
  import opened SlotCodec

  /** The characters of a C string before its terminator. */
  type CString = s: seq<u8> | 0 !in s

  /** The string held in a character buffer: everything before the first NUL. */
  function TextOf(buffer: seq<u8>): (r: CString)
    ensures |r| <= |buffer| && r <= buffer
    ensures |r| < |buffer| ==> buffer[|r|] == 0
  {
    if buffer == [] || buffer[0] == 0 then [] else [buffer[0]] + TextOf(buffer[1..])
  }

  lemma {:induction false} TextOfPadded(text: CString, n: nat)
    ensures TextOf(text + Fill(0, n)) == text
  {
    if text == [] {
      assert text + Fill(0, n) == Fill(0, n);
    } else {
      assert (text + Fill(0, n))[1..] == text[1..] + Fill(0, n);
      TextOfPadded(text[1..], n);
    }
  }

  datatype Record = Record(used: bool, key: seq<u8>, value: seq<u8>, valueSize: u8)

  const BLANK := Record(false, Fill(0, KEY_CAPACITY), Fill(0, VALUE_CAPACITY), 0)

  /** The buffers have their declared sizes, and the key is terminated. */
  predicate Shaped(r: Record) {
    && |r.key| == KEY_CAPACITY && r.key[KEY_CAPACITY - 1] == 0
    && |r.value| == VALUE_CAPACITY && r.valueSize <= VALUE_CAPACITY
  }

  lemma {:induction false} TextStopsAtNul(buffer: seq<u8>, i: nat)
    requires i < |buffer| && buffer[i] == 0
    ensures |TextOf(buffer)| <= i
    decreases i
  {
    if i > 0 && buffer[0] != 0 {
      TextStopsAtNul(buffer[1..], i - 1);
    }
  }

  function EntryOf(r: Record): (e: Entry)
    requires Shaped(r)
    ensures Writable(e)
  {
    TextStopsAtNul(r.key, KEY_CAPACITY - 1);
    Entry(TextOf(r.key), r.value[..r.valueSize])
  }

  function RecordOf(e: Entry): (r: Record)
    requires Storable(e)
    ensures Shaped(r) && r.used
  {
    Record(true, e.key + Fill(0, KEY_CAPACITY - |e.key|), e.value + Fill(0, VALUE_CAPACITY - |e.value|), |e.value|)
  }

  lemma EntryOfRecord(e: Entry)
    requires Storable(e) && 0 !in e.key
    ensures EntryOf(RecordOf(e)) == e
  {
    TextOfPadded(e.key, KEY_CAPACITY - |e.key|);
  }

  predicate AllShaped(rs: seq<Record>) {
    forall i :: 0 <= i < |rs| ==> Shaped(rs[i])
  }

  /** Used keys are one to 23 characters long and pairwise different. */
  ghost predicate Clean(rs: seq<Record>) {
    && AllShaped(rs)
    && (forall i :: 0 <= i < |rs| && rs[i].used ==> Storable(EntryOf(rs[i])))
    && (forall i, j :: 0 <= i < j < |rs| && rs[i].used && rs[j].used ==> TextOf(rs[i].key) != TextOf(rs[j].key))
  }

  // ---------------------------------------------------------------- entries

  /** The used records, compacted in order. */
  function Entries(rs: seq<Record>): (es: seq<Entry>)
    requires AllShaped(rs)
    ensures |es| <= |rs| && AllWritable(es)
  {
    if rs == [] then []
    else if rs[0].used then [EntryOf(rs[0])] + Entries(rs[1..])
    else Entries(rs[1..])
  }

  /** What a device can hold: storable entries with NUL-free, pairwise different keys. */
  ghost predicate CleanEntries(es: seq<Entry>) {
    && AllStorable(es) && |es| <= RECORD_CAPACITY
    && (forall i :: 0 <= i < |es| ==> 0 !in es[i].key)
    && (forall i, j :: 0 <= i < j < |es| ==> es[i].key != es[j].key)
  }

  lemma {:induction false} EntriesFromRecords(rs: seq<Record>, i: nat) returns (j: nat)
    requires AllShaped(rs) && i < |Entries(rs)|
    ensures i <= j < |rs| && rs[j].used && Entries(rs)[i] == EntryOf(rs[j])
  {
    if rs[0].used && i == 0 {
      j := 0;
    } else {
      j := EntriesFromRecords(rs[1..], if rs[0].used then i - 1 else i);
      j := j + 1;
    }
  }

  lemma CleanCons(e: Entry, es: seq<Entry>)
    requires CleanEntries(es) && |es| < RECORD_CAPACITY && Storable(e) && 0 !in e.key
    requires forall i :: 0 <= i < |es| ==> es[i].key != e.key
    ensures CleanEntries([e] + es)
  {
  }

  lemma FirstKeyIsNew(rs: seq<Record>, i: nat)
    requires Clean(rs) && rs != [] && rs[0].used && i < |Entries(rs[1..])|
    ensures Entries(rs[1..])[i].key != EntryOf(rs[0]).key
  {
    var j := EntriesFromRecords(rs[1..], i);
    assert rs[1..][j] == rs[j + 1];
  }

  lemma {:induction false} EntriesClean(rs: seq<Record>)
    requires Clean(rs) && |rs| <= RECORD_CAPACITY
    ensures CleanEntries(Entries(rs))
  {
    if rs != [] {
      EntriesClean(rs[1..]);
      var es := Entries(rs[1..]);
      if rs[0].used {
        forall i | 0 <= i < |es|
          ensures es[i].key != EntryOf(rs[0]).key
        {
          FirstKeyIsNew(rs, i);
        }
        CleanCons(EntryOf(rs[0]), es);
      }
    }
  }

  /** The records made of entries read from a slot: compacted, the rest blank. */
  function Restored(es: seq<Entry>): (rs: seq<Record>)
    requires AllStorable(es) && |es| <= RECORD_CAPACITY
    ensures |rs| == RECORD_CAPACITY && AllShaped(rs)
  {
    seq(RECORD_CAPACITY, i requires 0 <= i < RECORD_CAPACITY => if i < |es| then RecordOf(es[i]) else BLANK)
  }

  lemma {:induction false} EntriesOfBlanks(rs: seq<Record>)
    requires AllShaped(rs) && forall i :: 0 <= i < |rs| ==> !rs[i].used
    ensures Entries(rs) == []
  {
    if rs != [] {
      EntriesOfBlanks(rs[1..]);
    }
  }

  lemma {:induction false} EntriesOfUsed(rs: seq<Record>, es: seq<Entry>)
    requires AllShaped(rs) && |es| <= |rs|
    requires forall i :: 0 <= i < |es| ==> rs[i].used && EntryOf(rs[i]) == es[i]
    requires forall i :: |es| <= i < |rs| ==> !rs[i].used
    ensures Entries(rs) == es
  {
    if es == [] {
      EntriesOfBlanks(rs);
    } else {
      EntriesOfUsed(rs[1..], es[1..]);
      assert es == [es[0]] + es[1..];
    }
  }

  lemma RestoredClean(es: seq<Entry>)
    requires CleanEntries(es)
    ensures Clean(Restored(es)) && Entries(Restored(es)) == es
  {
    var rs := Restored(es);
    forall i | 0 <= i < |es|
      ensures EntryOf(rs[i]) == es[i]
    {
      EntryOfRecord(es[i]);
    }
    EntriesOfUsed(rs, es);
  }

  // ---------------------------------------------------------------- the map

  /** The map a list of entries stands for. */
  ghost function MapOf(es: seq<Entry>): map<seq<u8>, seq<u8>> {
    if es == [] then map[] else MapOf(es[1..])[es[0].key := es[0].value]
  }

  /** The map the table stands for. */
  ghost function Contents(rs: seq<Record>): map<seq<u8>, seq<u8>>
    requires AllShaped(rs)
  {
    MapOf(Entries(rs))
  }

  lemma ContentsStep(rs: seq<Record>)
    requires AllShaped(rs) && rs != []
    ensures Contents(rs) == if rs[0].used
                            then Contents(rs[1..])[EntryOf(rs[0]).key := EntryOf(rs[0]).value]
                            else Contents(rs[1..])
  {
    if rs[0].used {
      assert Entries(rs)[1..] == Entries(rs[1..]);
    }
  }

  lemma {:induction false} KeyHasRecord(rs: seq<Record>, key: seq<u8>) returns (i: nat)
    requires AllShaped(rs) && key in Contents(rs)
    ensures i < |rs| && rs[i].used && TextOf(rs[i].key) == key
  {
    ContentsStep(rs);
    if rs[0].used && TextOf(rs[0].key) == key {
      i := 0;
    } else {
      i := KeyHasRecord(rs[1..], key);
      i := i + 1;
    }
  }

  lemma KeyHasLaterRecord(rs: seq<Record>, key: seq<u8>) returns (j: nat)
    requires AllShaped(rs) && rs != [] && key in Contents(rs[1..])
    ensures 1 <= j < |rs| && rs[j].used && TextOf(rs[j].key) == key
  {
    var i := KeyHasRecord(rs[1..], key);
    j := i + 1;
  }

  lemma {:induction false} RecordIsMapped(rs: seq<Record>, i: nat)
    requires Clean(rs) && i < |rs| && rs[i].used
    ensures var e := EntryOf(rs[i]); e.key in Contents(rs) && Contents(rs)[e.key] == e.value
    decreases |rs|
  {
    ContentsStep(rs);
    if i > 0 {
      RecordIsMapped(rs[1..], i - 1);
    }
  }

  /** Two clean tables whose records agree as keys and values stand for maps related alike. */
  lemma MapsAgree(rs: seq<Record>, m: map<seq<u8>, seq<u8>>)
    requires Clean(rs)
    requires forall i :: 0 <= i < |rs| && rs[i].used ==>
                           EntryOf(rs[i]).key in m && m[EntryOf(rs[i]).key] == EntryOf(rs[i]).value
    requires forall k :: k in m ==> exists i :: 0 <= i < |rs| && rs[i].used && TextOf(rs[i].key) == k
    ensures Contents(rs) == m
  {
    forall k | k in Contents(rs)
      ensures k in m && m[k] == Contents(rs)[k]
    {
      var i := KeyHasRecord(rs, k);
      RecordIsMapped(rs, i);
    }
    forall k | k in m
      ensures k in Contents(rs)
    {
      var i :| 0 <= i < |rs| && rs[i].used && TextOf(rs[i].key) == k;
      RecordIsMapped(rs, i);
    }
  }

  lemma {:induction false} ContentsSize(rs: seq<Record>)
    requires Clean(rs)
    ensures |Contents(rs)| <= |rs|
    ensures |Contents(rs)| == |rs| <==> forall i :: 0 <= i < |rs| ==> rs[i].used
  {
    if rs != [] {
      ContentsStep(rs);
      ContentsSize(rs[1..]);
      var m := Contents(rs[1..]);
      if rs[0].used {
        var key := TextOf(rs[0].key);
        if key in m {
          var j := KeyHasLaterRecord(rs, key);
        }
        assert |m[key := EntryOf(rs[0]).value]| == |m| + 1;
      }
      assert (forall i :: 0 <= i < |rs| ==> rs[i].used)
          <==> rs[0].used && forall i :: 0 <= i < |rs[1..]| ==> rs[1..][i].used;
    }
  }

  // ---------------------------------------------------------------- lookups

  /** Comparison of a key buffer with a string, as `text_equal` does it. */
  predicate Holds(r: Record, key: CString)
    requires Shaped(r)
  {
    r.used && TextOf(r.key) == key
  }

  /** The first record holding `key`, from `at` on; `|rs|` when there is none. */
  function FindFrom(rs: seq<Record>, key: CString, at: nat): (i: nat)
    requires AllShaped(rs) && at <= |rs|
    ensures at <= i <= |rs|
    ensures i < |rs| ==> Holds(rs[i], key)
    ensures forall j :: at <= j < i ==> !Holds(rs[j], key)
    decreases |rs| - at
  {
    if at == |rs| || Holds(rs[at], key) then at else FindFrom(rs, key, at + 1)
  }

  function FreeFrom(rs: seq<Record>, at: nat): (i: nat)
    requires at <= |rs|
    ensures at <= i <= |rs|
    ensures i < |rs| ==> !rs[i].used
    ensures forall j :: at <= j < i ==> rs[j].used
    decreases |rs| - at
  {
    if at == |rs| || !rs[at].used then at else FreeFrom(rs, at + 1)
  }

  lemma UsedKeyIsFound(rs: seq<Record>, j: nat, key: CString)
    requires Clean(rs) && j < |rs| && rs[j].used && TextOf(rs[j].key) == key
    ensures FindFrom(rs, key, 0) == j
  {
    assert Storable(EntryOf(rs[j]));
    assert Holds(rs[j], key);
    var i := FindFrom(rs, key, 0);
    assert Holds(rs[i], key);
  }

  /** A key is found exactly when it is mapped. */
  lemma FoundIffMapped(rs: seq<Record>, key: CString)
    requires Clean(rs)
    ensures var i := FindFrom(rs, key, 0);
            && (i < |rs| <==> key in Contents(rs))
            && (i < |rs| ==> Contents(rs)[key] == EntryOf(rs[i]).value)
  {
    var i := FindFrom(rs, key, 0);
    if i < |rs| {
      RecordIsMapped(rs, i);
    }
    if key in Contents(rs) {
      var j := KeyHasRecord(rs, key);
      UsedKeyIsFound(rs, j, key);
    }
  }

  // ---------------------------------------------------------------- updates

  predicate ValidArguments(key: CString, value: seq<u8>) {
    1 <= |key| < KEY_CAPACITY && |value| <= VALUE_CAPACITY
  }

  /** `set_blob` with a non-null key and value. */
  function SetRecord(rs: seq<Record>, key: CString, value: seq<u8>): (r: (Status, seq<Record>))
    requires AllShaped(rs)
    ensures |r.1| == |rs| && AllShaped(r.1)
  {
    if !ValidArguments(key, value) then (InvalidArgument, rs)
    else
      var found := FindFrom(rs, key, 0);
      var i := if found < |rs| then found else FreeFrom(rs, 0);
      if i == |rs| then (NoResources, rs) else (Ok, rs[i := RecordOf(Entry(key, value))])
  }

  /** `erase` with a non-null key. */
  function EraseRecord(rs: seq<Record>, key: CString): (r: (Status, seq<Record>))
    requires AllShaped(rs)
    ensures |r.1| == |rs| && AllShaped(r.1)
  {
    var i := FindFrom(rs, key, 0);
    if i == |rs| then (NotFound, rs) else (Ok, rs[i := BLANK])
  }

  /** Setting updates the map; it fails exactly when the key is new and the map is full. */
  lemma SetUpdatesMap(rs: seq<Record>, key: CString, value: seq<u8>)
    requires Clean(rs)
    ensures var (status, after) := SetRecord(rs, key, value);
            && Clean(after)
            && (status == InvalidArgument <==> !(1 <= |key| <= 23 && |value| <= 64))
            && (status == NoResources <==>
                1 <= |key| <= 23 && |value| <= 64 && key !in Contents(rs) && |Contents(rs)| == |rs|)
            && Contents(after) == if status == Ok then Contents(rs)[key := value] else Contents(rs)
  {
    FoundIffMapped(rs, key);
    ContentsSize(rs);
    var (status, after) := SetRecord(rs, key, value);
    if status == Ok {
      var found := FindFrom(rs, key, 0);
      var i := if found < |rs| then found else FreeFrom(rs, 0);
      EntryOfRecord(Entry(key, value));
      SetStaysClean(rs, i, Entry(key, value));
      SetMap(rs, i, Entry(key, value));
    }
  }

  /** Slot `i` may take key `e.key`: no other used record has it. */
  ghost predicate Placeable(rs: seq<Record>, i: nat, e: Entry)
    requires AllShaped(rs)
  {
    && i < |rs| && Storable(e) && 0 !in e.key
    && (rs[i].used ==> TextOf(rs[i].key) == e.key)
    && forall j :: 0 <= j < |rs| && j != i && rs[j].used ==> TextOf(rs[j].key) != e.key
  }

  lemma SetStaysClean(rs: seq<Record>, i: nat, e: Entry)
    requires Clean(rs) && i < |rs| && Storable(e) && 0 !in e.key
    requires var found := FindFrom(rs, e.key, 0); i == if found < |rs| then found else FreeFrom(rs, 0)
    ensures Placeable(rs, i, e) && Clean(rs[i := RecordOf(e)])
  {
    EntryOfRecord(e);
    forall j | 0 <= j < |rs| && j != i && rs[j].used
      ensures TextOf(rs[j].key) != e.key
    {
      if TextOf(rs[j].key) == e.key {
        UsedKeyIsFound(rs, j, e.key);
      }
    }
  }

  lemma SetMap(rs: seq<Record>, i: nat, e: Entry)
    requires Clean(rs) && Placeable(rs, i, e) && Clean(rs[i := RecordOf(e)])
    ensures Contents(rs[i := RecordOf(e)]) == Contents(rs)[e.key := e.value]
  {
    var after, m := rs[i := RecordOf(e)], Contents(rs)[e.key := e.value];
    EntryOfRecord(e);
    forall j | 0 <= j < |after| && after[j].used
      ensures EntryOf(after[j]).key in m && m[EntryOf(after[j]).key] == EntryOf(after[j]).value
    {
      if j != i {
        RecordIsMapped(rs, j);
      }
    }
    forall k | k in m
      ensures exists j :: 0 <= j < |after| && after[j].used && TextOf(after[j].key) == k
    {
      if k == e.key {
        assert after[i].used && TextOf(after[i].key) == k;
      } else {
        var j := KeyHasRecord(rs, k);
        assert after[j] == rs[j];
      }
    }
    MapsAgree(after, m);
  }

  /** Erasing removes the key, and reports whether it was there. */
  lemma EraseUpdatesMap(rs: seq<Record>, key: CString)
    requires Clean(rs)
    ensures var (status, after) := EraseRecord(rs, key);
            && Clean(after)
            && status == (if key in Contents(rs) then Ok else NotFound)
            && Contents(after) == Contents(rs) - {key}
  {
    FoundIffMapped(rs, key);
    var (status, after) := EraseRecord(rs, key);
    var m := Contents(rs) - {key};
    if status == Ok {
      var i := FindFrom(rs, key, 0);
      forall j | 0 <= j < |after| && after[j].used
        ensures EntryOf(after[j]).key in m && m[EntryOf(after[j]).key] == EntryOf(after[j]).value
      {
        RecordIsMapped(rs, j);
      }
      forall k | k in m
        ensures exists j :: 0 <= j < |after| && after[j].used && TextOf(after[j].key) == k
      {
        var j := KeyHasRecord(rs, k);
        assert after[j] == rs[j];
      }
      MapsAgree(after, m);
    } else {
      assert m == Contents(rs);
    }
  }

  /** What a lookup of `key` yields. */
  function Lookup(rs: seq<Record>, key: CString): Option<seq<u8>>
    requires AllShaped(rs)
  {
    var i := FindFrom(rs, key, 0);
    if i == |rs| then None else Some(EntryOf(rs[i]).value)
  }

  /** A word that was set is read back, and lookups of other keys are as before. */
  lemma SetThenGet(rs: seq<Record>, key: CString, value: u32, other: CString)
    requires Clean(rs) && SetRecord(rs, key, LittleEndian(value)).0 == Ok && other != key
    ensures var after := SetRecord(rs, key, LittleEndian(value)).1;
            && Lookup(after, other) == Lookup(rs, other)
            && Lookup(after, key) == Some(LittleEndian(value)) && Word(LittleEndian(value)) == value
  {
    var after := SetRecord(rs, key, LittleEndian(value)).1;
    SetUpdatesMap(rs, key, LittleEndian(value));
    WordOfLittleEndian(value);
    FoundIffMapped(after, key);
    FoundIffMapped(after, other);
    FoundIffMapped(rs, other);
  }
}
