/**
 * The configuration slot: magic, sequence number, record count, records, zero padding, CRC-32.
 * The codec is a round trip, and this module says exactly which damaged slots are still read.
 */
module SlotCodec {
  import opened Words
  import opened Lfsr
  import opened Crc
  import opened Status

  const MAGIC: u32 := 0x3147_4643
  const SLOT_BYTES: nat := 2304
  const PAYLOAD_BYTES: nat := 2300
  const KEY_CAPACITY: nat := 24
  const VALUE_CAPACITY: nat := 64
  const RECORD_CAPACITY: nat := 24
  const HEADER_BYTES: nat := 9

  /** A record as stored: the key without its terminator, and the value. */
  datatype Entry = Entry(key: seq<u8>, value: seq<u8>)

  datatype Snapshot = Snapshot(sequence: u32, entries: seq<Entry>)

  /** What any table record holds: a terminated key, possibly empty, and a bounded value. */
  predicate Writable(e: Entry) {
    |e.key| < KEY_CAPACITY && |e.value| <= VALUE_CAPACITY
  }

  predicate AllWritable(es: seq<Entry>) {
    forall i :: 0 <= i < |es| ==> Writable(es[i])
  }

  /** What `read_slot` accepts: the key must not be empty. */
  predicate Storable(e: Entry) {
    Writable(e) && |e.key| >= 1
  }

  predicate AllStorable(es: seq<Entry>) {
    forall i :: 0 <= i < |es| ==> Storable(es[i])
  }

  // ---------------------------------------------------------------- encoding

  function EncodeEntry(e: Entry): (r: seq<u8>)
    requires Writable(e)
    ensures |r| == 2 + |e.key| + |e.value|
  {
    [|e.key|, |e.value|] + e.key + e.value
  }

  function EncodeEntries(es: seq<Entry>): (r: seq<u8>)
    requires AllWritable(es)
    ensures |r| <= 89 * |es|
  {
    if es == [] then [] else EncodeEntry(es[0]) + EncodeEntries(es[1..])
  }

  function Header(sequence: u32, count: u8): (r: seq<u8>)
    ensures |r| == HEADER_BYTES
  {
    LittleEndian(MAGIC) + LittleEndian(sequence) + [count]
  }

  /** At most 2145 octets, so the writer never runs out of room. */
  function Body(sequence: u32, es: seq<Entry>): (r: seq<u8>)
    requires AllWritable(es) && |es| <= RECORD_CAPACITY
    ensures HEADER_BYTES <= |r| <= 2145
  {
    Header(sequence, |es|) + EncodeEntries(es)
  }

  function Payload(sequence: u32, es: seq<Entry>): (r: seq<u8>)
    requires AllWritable(es) && |es| <= RECORD_CAPACITY
    ensures |r| == PAYLOAD_BYTES
  {
    var body := Body(sequence, es);
    body + Fill(0, PAYLOAD_BYTES - |body|)
  }

  ghost function Slot(sequence: u32, es: seq<Entry>): (r: seq<u8>)
    requires AllWritable(es) && |es| <= RECORD_CAPACITY
    ensures |r| == SLOT_BYTES
  {
    var p := Payload(sequence, es);
    p + LittleEndian(Checksum32(p))
  }

  // ---------------------------------------------------------------- decoding

  /** The record at `at`, if its sizes are in range and it ends within `b`. */
  function DecodeEntry(b: seq<u8>, at: nat): (r: Option<Entry>)
    ensures r.Some? ==> Storable(r.value) && at + |EncodeEntry(r.value)| <= |b|
  {
    if at + 2 > |b| || b[at] == 0 || b[at] >= KEY_CAPACITY || b[at + 1] > VALUE_CAPACITY then None
    else
      var keyEnd := at + 2 + b[at];
      var end := keyEnd + b[at + 1];
      if end > |b| then None else Some(Entry(b[at + 2..keyEnd], b[keyEnd..end]))
  }

  function Prepended(e: Entry, rest: Option<seq<Entry>>): Option<seq<Entry>> {
    if rest.None? then None else Some([e] + rest.value)
  }

  function DecodeEntries(b: seq<u8>, at: nat, count: nat): (r: Option<seq<Entry>>)
    ensures r.Some? ==> |r.value| == count && AllStorable(r.value)
    decreases count
  {
    if count == 0 then Some([])
    else
      var first := DecodeEntry(b, at);
      if first.None? then None
      else
        Prepended(first.value, DecodeEntries(b, at + |EncodeEntry(first.value)|, count - 1))
  }

  /** The contents of a payload whose checksum has been accepted. */
  function Parse(p: seq<u8>): (r: Option<Snapshot>)
    requires |p| == PAYLOAD_BYTES
    ensures r.Some? ==> AllStorable(r.value.entries) && |r.value.entries| <= RECORD_CAPACITY
  {
    if Word(p[..4]) != MAGIC || p[8] > RECORD_CAPACITY then None
    else
      var es := DecodeEntries(p, HEADER_BYTES, p[8]);
      if es.None? then None else Some(Snapshot(Word(p[4..8]), es.value))
  }

  ghost predicate CrcMatches(b: seq<u8>)
    requires |b| == SLOT_BYTES
  {
    Word(b[PAYLOAD_BYTES..]) == Checksum32(b[..PAYLOAD_BYTES])
  }

  /** What `read_slot` makes of the octets of a slot; `None` stands for `corrupt`. */
  ghost function ReadSlot(b: seq<u8>): (r: Option<Snapshot>)
    requires |b| == SLOT_BYTES
    ensures r.Some? ==> AllStorable(r.value.entries) && |r.value.entries| <= RECORD_CAPACITY
  {
    if CrcMatches(b) then Parse(b[..PAYLOAD_BYTES]) else None
  }

  // ---------------------------------------------------------------- round trip

  lemma EncodeCons(e: Entry, rest: seq<Entry>)
    requires Writable(e) && AllWritable(rest)
    ensures AllWritable([e] + rest)
    ensures EncodeEntries([e] + rest) == EncodeEntry(e) + EncodeEntries(rest)
  {
    assert ([e] + rest)[1..] == rest;
  }

  lemma SubSlice(b: seq<u8>, at: nat, n: nat, i: nat, j: nat)
    requires i <= j <= n && at + n <= |b|
    ensures b[at..at + n][i..j] == b[at + i..at + j]
  {
    var s, t := b[at..at + n][i..j], b[at + i..at + j];
    assert |s| == |t| && forall k :: 0 <= k < |s| ==> s[k] == t[k];
  }

  lemma EntryRoundTrip(b: seq<u8>, at: nat, e: Entry)
    requires Storable(e) && at + |EncodeEntry(e)| <= |b|
    requires b[at..at + |EncodeEntry(e)|] == EncodeEntry(e)
    ensures DecodeEntry(b, at) == Some(e)
  {
    var w, k := EncodeEntry(e), 2 + |e.key|;
    assert b[at] == w[0] && b[at + 1] == w[1];
    SubSlice(b, at, |w|, 2, k);
    SubSlice(b, at, |w|, k, |w|);
    assert w[2..k] == e.key && w[k..|w|] == e.value;
  }

  /** The octets `w` stand at `at` in `b`. */
  ghost predicate HasAt(b: seq<u8>, at: nat, w: seq<u8>) {
    at + |w| <= |b| && b[at..at + |w|] == w
  }

  lemma JoinAt(b: seq<u8>, at: nat, v: seq<u8>, w: seq<u8>)
    requires HasAt(b, at, v) && HasAt(b, at + |v|, w)
    ensures HasAt(b, at, v + w)
  {
    SliceJoin(b, at, at + |v|, at + |v| + |w|);
  }

  lemma EntryCanonical(b: seq<u8>, at: nat)
    requires DecodeEntry(b, at).Some?
    ensures HasAt(b, at, EncodeEntry(DecodeEntry(b, at).value))
  {
    var e := DecodeEntry(b, at).value;
    var k := at + 2 + |e.key|;
    assert b[at..k + |e.value|] == [b[at], b[at + 1]] + b[at + 2..k] + b[k..k + |e.value|];
  }

  lemma SliceJoin(b: seq<u8>, i: nat, j: nat, k: nat)
    requires i <= j <= k <= |b|
    ensures b[i..k] == b[i..j] + b[j..k]
    ensures b[i..k][..j - i] == b[i..j] && b[i..k][j - i..] == b[j..k]
  {
  }

  lemma SliceOfConcat(b: seq<u8>, at: nat, first: seq<u8>, rest: seq<u8>)
    requires at + |first + rest| <= |b| && b[at..at + |first + rest|] == first + rest
    ensures b[at..at + |first|] == first && b[at + |first|..at + |first| + |rest|] == rest
  {
    SliceJoin(b, at, at + |first|, at + |first| + |rest|);
    assert first == (first + rest)[..|first|] && rest == (first + rest)[|first|..];
  }

  lemma DecodeStep(b: seq<u8>, at: nat, count: nat, e: Entry)
    requires count > 0 && DecodeEntry(b, at) == Some(e)
    ensures DecodeEntries(b, at, count) == Prepended(e, DecodeEntries(b, at + |EncodeEntry(e)|, count - 1))
  {
  }

  lemma EncodedStep(b: seq<u8>, at: nat, e: Entry, rest: seq<Entry>)
    requires Storable(e) && AllWritable([e] + rest) && AllWritable(rest)
    requires var encoded := EncodeEntries([e] + rest); at + |encoded| <= |b| && b[at..at + |encoded|] == encoded
    ensures DecodeEntry(b, at) == Some(e)
    ensures var next := at + |EncodeEntry(e)|;
            && next + |EncodeEntries(rest)| <= |b|
            && b[next..next + |EncodeEntries(rest)|] == EncodeEntries(rest)
  {
    EncodeCons(e, rest);
    SliceOfConcat(b, at, EncodeEntry(e), EncodeEntries(rest));
    EntryRoundTrip(b, at, e);
  }

  lemma {:induction false} DecodeEncoded(b: seq<u8>, at: nat, es: seq<Entry>)
    requires AllStorable(es) && at + |EncodeEntries(es)| <= |b|
    requires b[at..at + |EncodeEntries(es)|] == EncodeEntries(es)
    ensures DecodeEntries(b, at, |es|) == Some(es)
    decreases |es|
  {
    if es != [] {
      var e, rest := es[0], es[1..];
      assert es == [e] + rest;
      EncodedStep(b, at, e, rest);
      DecodeEncoded(b, at + |EncodeEntry(e)|, rest);
      DecodeStep(b, at, |es|, e);
    }
  }

  /** Whatever follows an encoded body, parsing gives back what was encoded. */
  lemma ParseBody(p: seq<u8>, sequence: u32, es: seq<Entry>)
    requires AllStorable(es) && |es| <= RECORD_CAPACITY && |p| == PAYLOAD_BYTES
    requires Body(sequence, es) <= p
    ensures Parse(p) == Some(Snapshot(sequence, es))
  {
    var body := Body(sequence, es);
    var h := Header(sequence, |es|);
    assert p[..|body|] == body && body[..9] == h;
    assert p[..4] == h[..4] == LittleEndian(MAGIC);
    assert p[4..8] == h[4..8] == LittleEndian(sequence);
    assert p[8] == h[8] == |es|;
    WordOfLittleEndian(MAGIC);
    WordOfLittleEndian(sequence);
    assert p[9..9 + |EncodeEntries(es)|] == body[9..] == EncodeEntries(es);
    DecodeEncoded(p, 9, es);
  }

  lemma SlotCrcMatches(sequence: u32, es: seq<Entry>)
    requires AllStorable(es) && |es| <= RECORD_CAPACITY
    ensures CrcMatches(Slot(sequence, es)) && Slot(sequence, es)[..PAYLOAD_BYTES] == Payload(sequence, es)
  {
    var p, b := Payload(sequence, es), Slot(sequence, es);
    assert b[..PAYLOAD_BYTES] == p && b[PAYLOAD_BYTES..] == LittleEndian(Checksum32(p));
    WordOfLittleEndian(Checksum32(p));
  }

  lemma SlotRoundTrip(sequence: u32, es: seq<Entry>)
    requires AllStorable(es) && |es| <= RECORD_CAPACITY
    ensures ReadSlot(Slot(sequence, es)) == Some(Snapshot(sequence, es))
  {
    SlotCrcMatches(sequence, es);
    ParseBody(Payload(sequence, es), sequence, es);
  }

  lemma HeaderCanonical(p: seq<u8>)
    requires |p| == PAYLOAD_BYTES && Word(p[..4]) == MAGIC
    ensures p[..9] == Header(Word(p[4..8]), p[8])
  {
    LittleEndianOfWord(p[..4]);
    LittleEndianOfWord(p[4..8]);
    assert p[..9] == p[..4] + p[4..8] + [p[8]];
  }

  /** Conversely, a slot that is read starts with the encoding of what was read. */
  lemma ParseCanonical(p: seq<u8>)
    requires |p| == PAYLOAD_BYTES && Parse(p).Some?
    ensures var s := Parse(p).value; Body(s.sequence, s.entries) <= p
  {
    var s := Parse(p).value;
    DecodeCanonical(p, 9, s.entries);
    HeaderCanonical(p);
    var encoded := EncodeEntries(s.entries);
    assert p[..9 + |encoded|] == p[..9] + p[9..9 + |encoded|];
  }

  predicate Decodes(b: seq<u8>, at: nat, es: seq<Entry>) {
    DecodeEntries(b, at, |es|) == Some(es)
  }

  lemma DecodesFirst(b: seq<u8>, at: nat, e: Entry, rest: seq<Entry>)
    requires Decodes(b, at, [e] + rest)
    ensures DecodeEntry(b, at) == Some(e) && Decodes(b, at + |EncodeEntry(e)|, rest)
  {
    var first := DecodeEntry(b, at).value;
    DecodeStep(b, at, |[e] + rest|, first);
    var others := DecodeEntries(b, at + |EncodeEntry(first)|, |rest|).value;
    assert ([first] + others)[0] == first && ([first] + others)[1..] == others && ([e] + rest)[1..] == rest;
  }

  lemma {:induction false} DecodeCanonical(b: seq<u8>, at: nat, es: seq<Entry>)
    requires AllWritable(es) && Decodes(b, at, es) && at <= |b|
    ensures HasAt(b, at, EncodeEntries(es))
    decreases |es|
  {
    if es != [] {
      var e, rest := es[0], es[1..];
      assert es == [e] + rest;
      DecodesFirst(b, at, e, rest);
      EntryCanonical(b, at);
      DecodeCanonical(b, at + |EncodeEntry(e)|, rest);
      EncodeCons(e, rest);
      JoinAt(b, at, EncodeEntry(e), EncodeEntries(rest));
    }
  }

  // ---------------------------------------------------------------- layout

  /** Where record `i` is stored in a slot: after the header and the records before it. */
  function PlaceOf(es: seq<Entry>, i: nat): (p: nat)
    requires i <= |es|
    ensures p >= 9
  {
    if i == 0 then 9 else PlaceOf(es, i - 1) + 2 + |es[i - 1].key| + |es[i - 1].value|
  }

  lemma {:induction false} PlaceAfterFirst(es: seq<Entry>, i: nat)
    requires 0 < i <= |es|
    ensures PlaceOf(es, i) == 2 + |es[0].key| + |es[0].value| + PlaceOf(es[1..], i - 1)
    decreases i
  {
    if i > 1 {
      PlaceAfterFirst(es, i - 1);
    }
  }

  /** The octets of one record: key size, value size, key, value. */
  ghost predicate RecordAt(b: seq<u8>, at: nat, e: Entry) {
    && at + 2 + |e.key| + |e.value| <= |b|
    && b[at] as int == |e.key| && b[at + 1] as int == |e.value|
    && b[at + 2..at + 2 + |e.key|] == e.key
    && b[at + 2 + |e.key|..at + 2 + |e.key| + |e.value|] == e.value
  }

  lemma EntryIsRecordAt(b: seq<u8>, at: nat, e: Entry)
    requires Writable(e) && HasAt(b, at, EncodeEntry(e))
    ensures RecordAt(b, at, e)
  {
    var w, k := EncodeEntry(e), 2 + |e.key|;
    assert b[at] == b[at..at + |w|][0] == w[0] && b[at + 1] == b[at..at + |w|][1] == w[1];
    SubSlice(b, at, |w|, 2, k);
    SubSlice(b, at, |w|, k, |w|);
    assert w[2..k] == e.key && w[k..|w|] == e.value;
  }

  lemma {:induction false} EncodedSize(es: seq<Entry>)
    requires AllWritable(es)
    ensures |EncodeEntries(es)| == PlaceOf(es, |es|) - 9
  {
    if es != [] {
      PlaceAfterFirst(es, |es|);
      EncodedSize(es[1..]);
    }
  }

  lemma {:induction false} EntriesInPlace(b: seq<u8>, at: nat, es: seq<Entry>, i: nat)
    requires AllWritable(es) && HasAt(b, at, EncodeEntries(es)) && i < |es|
    ensures RecordAt(b, at + (PlaceOf(es, i) - 9), es[i])
    decreases |es|
  {
    var e, rest := es[0], es[1..];
    SliceOfConcat(b, at, EncodeEntry(e), EncodeEntries(rest));
    if i == 0 {
      EntryIsRecordAt(b, at, e);
    } else {
      EntriesInPlace(b, at + |EncodeEntry(e)|, rest, i - 1);
      PlaceAfterFirst(es, i);
    }
  }

  /** A slot in its four parts. */
  lemma SlotParts(h: seq<u8>, w: seq<u8>, zeros: seq<u8>, crc: seq<u8>, b: seq<u8>)
    requires |h| == 9 && |w| + |zeros| == 2291 && |crc| == 4 && b == h + w + zeros + crc
    ensures b[..9] == h && HasAt(b, 9, w) && b[9 + |w|..2300] == zeros && b[2300..] == crc
  {
  }

  lemma SlotIsParts(sequence: u32, es: seq<Entry>)
    requires AllWritable(es) && |es| <= 24
    ensures var b, w := Slot(sequence, es), EncodeEntries(es);
            && |b| == 2304 && b[..9] == Header(sequence, |es|) && HasAt(b, 9, w)
            && 9 + |w| <= 2145 && b[9 + |w|..2300] == Fill(0, 2291 - |w|)
            && b[2300..] == LittleEndian(Checksum32(b[..2300]))
  {
    var b, w, p := Slot(sequence, es), EncodeEntries(es), Payload(sequence, es);
    SlotParts(Header(sequence, |es|), w, Fill(0, 2291 - |w|), LittleEndian(Checksum32(p)), b);
    assert b[..2300] == p;
  }

  lemma HeaderOctets(sequence: u32, count: u8)
    ensures var h := Header(sequence, count);
            h[..4] == [0x43, 0x46, 0x47, 0x31] && Word(h[4..8]) == sequence && h[8] == count
  {
    var h := Header(sequence, count);
    assert h[..4] == LittleEndian(MAGIC) && h[4..8] == LittleEndian(sequence);
    WordOfLittleEndian(sequence);
  }

  /** The octets of a slot: first the characters CFG1, the sequence number and the number of records. */
  lemma SlotHead(sequence: u32, es: seq<Entry>)
    requires AllWritable(es) && |es| <= 24
    ensures var b := Slot(sequence, es);
            b[..4] == [0x43, 0x46, 0x47, 0x31] && Word(b[4..8]) == sequence && b[8] as int == |es|
  {
    var b := Slot(sequence, es);
    SlotIsParts(sequence, es);
    HeaderOctets(sequence, |es|);
    SliceOfPrefix(b, 9, 0, 4);
    SliceOfPrefix(b, 9, 4, 8);
    assert b[8] == b[..9][8];
  }

  lemma SliceOfPrefix(s: seq<u8>, n: nat, i: nat, j: nat)
    requires i <= j <= n <= |s|
    ensures s[..n][i..j] == s[i..j]
  {
  }

  /** Then each record behind the one before. */
  lemma SlotRecords(sequence: u32, es: seq<Entry>, i: nat)
    requires AllWritable(es) && |es| <= 24 && i < |es|
    ensures RecordAt(Slot(sequence, es), PlaceOf(es, i), es[i])
  {
    SlotIsParts(sequence, es);
    EntriesInPlace(Slot(sequence, es), 9, es, i);
  }

  /** Then zeros, and from place 2300 on the checksum of all before it. */
  lemma SlotTail(sequence: u32, es: seq<Entry>)
    requires AllWritable(es) && |es| <= 24
    ensures var b, end := Slot(sequence, es), PlaceOf(es, |es|);
            && |b| == 2304 && end <= 2145 && b[end..2300] == Fill(0, 2300 - end)
            && Word(b[2300..]) == Checksum32(b[..2300])
  {
    SlotIsParts(sequence, es);
    EncodedSize(es);
    WordOfLittleEndian(Checksum32(Slot(sequence, es)[..2300]));
  }

  // ---------------------------------------------------------------- bursts

  lemma CrcMatchesForm(b: seq<u8>)
    requires |b| == SLOT_BYTES && CrcMatches(b)
    ensures var p := b[..PAYLOAD_BYTES]; b == p + LittleEndian(Checksum32(p))
  {
    LittleEndianOfWord(b[PAYLOAD_BYTES..]);
  }

  /** No burst of up to 32 consecutive bits, anywhere in a slot, goes unnoticed. */
  lemma BurstIsCorrupt(sequence: u32, es: seq<Entry>, b: seq<u8>)
    requires AllStorable(es) && |es| <= RECORD_CAPACITY && |b| == SLOT_BYTES
    requires Burst(Slot(sequence, es), b, 32)
    ensures ReadSlot(b) == None
  {
    if CrcMatches(b) {
      CrcMatchesForm(b);
      Crc32DetectsBursts(Payload(sequence, es), b[..PAYLOAD_BYTES]);
    }
  }
}
