/**
 * Slots left behind by an interrupted erase or write.  Flash is erased to 0xFF and both
 * operations proceed from the lowest address upwards.
 */
module SlotTears {
  import opened Words
  import opened Lfsr
  import opened Crc
  import opened Status
  import opened SlotCodec

  /** An erased slot into which only the first `k` octets of `w` were written. */
  function Torn(w: seq<u8>, k: nat): (r: seq<u8>)
    requires |w| == SLOT_BYTES && k <= SLOT_BYTES
    ensures |r| == SLOT_BYTES
  {
    w[..k] + Fill(0xFF, SLOT_BYTES - k)
  }

  /** A slot whose erase stopped after `j` octets. */
  function HalfErased(w: seq<u8>, j: nat): (r: seq<u8>)
    requires |w| == SLOT_BYTES && j <= SLOT_BYTES
    ensures |r| == SLOT_BYTES
  {
    Fill(0xFF, j) + w[j..]
  }

  lemma WrongMagic(b: seq<u8>, i: nat)
    requires |b| == SLOT_BYTES && i < 4 && b[i] == 0xFF
    ensures ReadSlot(b) == None
  {
    var p := b[..PAYLOAD_BYTES];
    if Word(p[..4]) == MAGIC {
      LittleEndianOfWord(p[..4]);
      assert p[..4][i] == LittleEndian(MAGIC)[i];
    }
  }

  /** However the erase was interrupted, once begun it leaves nothing readable. */
  lemma HalfErasedIsCorrupt(w: seq<u8>, j: nat)
    requires |w| == SLOT_BYTES && 1 <= j <= SLOT_BYTES
    ensures ReadSlot(HalfErased(w, j)) == None
  {
    WrongMagic(HalfErased(w, j), 0);
  }

  // ---------------------------------------------------------------- torn records

  /** Where the text of the last record starts, relative to the records. */
  function TextStart(es: seq<Entry>): nat
    requires AllStorable(es) && es != []
  {
    |EncodeEntries(es[..|es| - 1])| + 2
  }

  lemma TextStartStep(es: seq<Entry>)
    requires AllStorable(es) && es != []
    ensures TextStart(es) == if |es| == 1 then 2 else |EncodeEntry(es[0])| + TextStart(es[1..])
  {
    if |es| == 1 {
      assert es[..0] == [];
    } else {
      assert es[..|es| - 1] == [es[0]] + es[1..][..|es| - 2];
      EncodeCons(es[0], es[1..][..|es| - 2]);
    }
  }

  lemma EncodeNonEmpty(es: seq<Entry>)
    requires AllStorable(es) && |es| > 0
    ensures EncodeEntries(es) == EncodeEntry(es[0]) + EncodeEntries(es[1..])
  {
  }

  /** Erased octets are no record. */
  lemma ErasedIsNoEntry(b: seq<u8>, at: nat, count: nat)
    requires count > 0 && (at + 2 <= |b| ==> b[at] == 0xFF || b[at + 1] == 0xFF)
    ensures DecodeEntries(b, at, count) == None
  {
    assert DecodeEntry(b, at) == None;
  }

  predicate Parses(b: seq<u8>, at: nat, count: nat) {
    DecodeEntries(b, at, count).Some?
  }

  /** The sizes of a record decide its extent, whatever its text. */
  lemma SizesDecideExtent(b: seq<u8>, at: nat, e: Entry, count: nat)
    requires Storable(e) && at + |EncodeEntry(e)| <= |b| && count > 0
    requires b[at] == |e.key| && b[at + 1] == |e.value|
    ensures Parses(b, at, count) <==> Parses(b, at + |EncodeEntry(e)|, count - 1)
  {
    assert DecodeEntry(b, at).Some?;
    DecodeStep(b, at, count, DecodeEntry(b, at).value);
  }

  /** From `at` on, `b` holds the encoding of `es` up to `k` and erased octets after. */
  ghost predicate CutAt(b: seq<u8>, k: nat, at: nat, es: seq<Entry>)
    requires AllStorable(es)
  {
    && at + |EncodeEntries(es)| <= |b|
    && (forall i :: k <= i < |b| ==> b[i] == 0xFF)
    && (forall i :: at <= i < k && i < at + |EncodeEntries(es)| ==> b[i] == EncodeEntries(es)[i - at])
  }

  lemma CutHead(b: seq<u8>, k: nat, at: nat, es: seq<Entry>)
    requires AllStorable(es) && es != [] && CutAt(b, k, at, es) && k >= at + 2
    ensures b[at] == |es[0].key| && b[at + 1] == |es[0].value|
  {
    EncodeNonEmpty(es);
    assert b[at] == EncodeEntries(es)[0] == EncodeEntry(es[0])[0];
    assert b[at + 1] == EncodeEntries(es)[1] == EncodeEntry(es[0])[1];
  }

  lemma CutRest(b: seq<u8>, k: nat, at: nat, es: seq<Entry>)
    requires AllStorable(es) && es != [] && CutAt(b, k, at, es)
    ensures CutAt(b, k, at + |EncodeEntry(es[0])|, es[1..])
  {
    EncodeNonEmpty(es);
    var next := at + |EncodeEntry(es[0])|;
    forall i | next <= i < k && i < next + |EncodeEntries(es[1..])|
      ensures b[i] == EncodeEntries(es[1..])[i - next]
    {
      assert b[i] == EncodeEntries(es)[i - at];
    }
  }

  lemma CutEarly(b: seq<u8>, k: nat, at: nat, es: seq<Entry>)
    requires AllStorable(es) && es != [] && CutAt(b, k, at, es) && k < at + 2
    ensures !Parses(b, at, |es|)
  {
    ErasedIsNoEntry(b, at, |es|);
  }

  /** Whether the records parse is settled by the records after the first. */
  lemma CutLate(b: seq<u8>, k: nat, at: nat, es: seq<Entry>)
    requires AllStorable(es) && es != [] && CutAt(b, k, at, es) && k >= at + 2
    ensures Parses(b, at, |es|) <==> Parses(b, at + |EncodeEntry(es[0])|, |es| - 1)
  {
    CutHead(b, k, at, es);
    EncodeNonEmpty(es);
    SizesDecideExtent(b, at, es[0], |es|);
  }

  /**
   * Records cut at `k` and erased from there on still parse exactly when the cut
   * comes after the two size octets of the last record.
   */
  lemma {:induction false} TornRecords(b: seq<u8>, k: nat, at: nat, es: seq<Entry>)
    requires AllStorable(es) && es != [] && CutAt(b, k, at, es)
    requires k < at + |EncodeEntries(es)|
    ensures Parses(b, at, |es|) <==> k >= at + TextStart(es)
    decreases |es|
  {
    TextStartStep(es);
    if k < at + 2 {
      CutEarly(b, k, at, es);
    } else {
      CutLate(b, k, at, es);
      if |es| > 1 {
        EncodeNonEmpty(es);
        CutRest(b, k, at, es);
        TornRecords(b, k, at + |EncodeEntry(es[0])|, es[1..]);
      }
    }
  }

  // ---------------------------------------------------------------- the verdict on a torn slot

  /** The register reaches zero over the erased rest, which is what four 0xFF octets assert. */
  ghost predicate Collision(written: seq<u8>)
    requires |written| <= PAYLOAD_BYTES
  {
    Run(Poly32(), Register32(written), Stream(Fill(0xFF, PAYLOAD_BYTES - |written|))) == Zero(32)
  }

  /** Where the last record's key starts: everything before is settled once it is written. */
  function LastTextAt(es: seq<Entry>): nat
    requires AllStorable(es) && es != []
  {
    HEADER_BYTES + TextStart(es)
  }

  /**
   * The one way an interrupted write can be mistaken for a table nobody committed: it stops
   * within the last record's text, changes it, and the checksum happens to collide.
   */
  ghost predicate Deceptive(sequence: u32, es: seq<Entry>, k: nat)
    requires AllStorable(es) && |es| <= RECORD_CAPACITY
  {
    && es != []
    && LastTextAt(es) <= k < |Body(sequence, es)|
    && (exists i :: k <= i < |Body(sequence, es)| && Body(sequence, es)[i] != 0xFF)
    && Collision(Body(sequence, es)[..k])
  }

  lemma AllOnesWord()
    ensures Word(Fill(0xFF, 4)) == 0xFFFF_FFFF && BitsOf(0xFFFF_FFFF, 32) == Ones(32)
  {
    Widths();
    BitsOfAllOnes(32);
  }

  lemma XorOnes(r: Bits)
    ensures Xor(r, Ones(|r|)) == Ones(|r|) <==> r == Zero(|r|)
  {
    if Xor(r, Ones(|r|)) == Ones(|r|) {
      forall i | 0 <= i < |r|
        ensures r[i] == Zero(|r|)[i]
      {
        assert Xor(r, Ones(|r|))[i];
      }
    }
  }

  lemma ChecksumAllOnes(s: seq<u8>)
    ensures Checksum32(s) == 0xFFFF_FFFF <==> Register32(s) == Zero(32)
  {
    AllOnesWord();
    XorOnes(Register32(s));
    Widths();
    if Register32(s) == Zero(32) {
      BitsOfInjective(Checksum32(s), 0xFFFF_FFFF, 32);
    }
  }

  lemma TornCrc(w: seq<u8>, k: nat)
    requires |w| == SLOT_BYTES && k <= PAYLOAD_BYTES
    ensures CrcMatches(Torn(w, k)) <==> Collision(w[..k])
  {
    var t := Torn(w, k);
    var p, rest := t[..PAYLOAD_BYTES], Fill(0xFF, PAYLOAD_BYTES - k);
    assert p == w[..k] + rest && t[PAYLOAD_BYTES..] == Fill(0xFF, 4);
    StreamConcat(w[..k], rest);
    RunConcat(Poly32(), Ones(32), Stream(w[..k]), Stream(rest));
    ChecksumAllOnes(p);
    AllOnesWord();
  }

  lemma TornPrefix(w: seq<u8>, k: nat, n: nat)
    requires |w| == SLOT_BYTES && n <= k <= SLOT_BYTES && n <= PAYLOAD_BYTES
    ensures Torn(w, k)[..PAYLOAD_BYTES][..n] == w[..n]
  {
  }

  /** A write stopped before the last record's text leaves no readable slot. */
  lemma TornEarly(sequence: u32, es: seq<Entry>, k: nat)
    requires AllStorable(es) && |es| <= RECORD_CAPACITY && k < |Body(sequence, es)|
    requires es == [] || k < LastTextAt(es)
    ensures ReadSlot(Torn(Slot(sequence, es), k)) == None
  {
    var w := Slot(sequence, es);
    var t := Torn(w, k);
    if k < 4 {
      WrongMagic(t, 3);
    } else if k < 9 {
      assert t[..PAYLOAD_BYTES][8] == 0xFF;
    } else {
      TornTail(sequence, es, k);
    }
  }

  lemma TornTail(sequence: u32, es: seq<Entry>, k: nat)
    requires AllStorable(es) && |es| <= RECORD_CAPACITY && HEADER_BYTES <= k < |Body(sequence, es)|
    ensures es != []
    ensures var p := Torn(Slot(sequence, es), k)[..PAYLOAD_BYTES];
            && (Parse(p).Some? <==> k >= LastTextAt(es))
            && (Parse(p).Some? ==> Parse(p).value.sequence == sequence)
  {
    var w, body := Slot(sequence, es), Body(sequence, es);
    var p := Torn(w, k)[..PAYLOAD_BYTES];
    var h := Header(sequence, |es|);
    TornPrefix(w, k, 9);
    assert w[..9] == body[..9] == h;
    assert p[..4] == p[..9][..4] == LittleEndian(MAGIC);
    assert p[4..8] == p[..9][4..8] == LittleEndian(sequence);
    assert p[8] == p[..9][8] == |es|;
    WordOfLittleEndian(MAGIC);
    WordOfLittleEndian(sequence);
    assert body[9..] == EncodeEntries(es);
    forall i | 9 <= i < k
      ensures p[i] == EncodeEntries(es)[i - 9]
    {
      assert p[i] == w[i] == body[i];
    }
    TornRecords(p, k, 9, es);
  }

  /**
   * The exact outcome of an interrupted write: nothing readable, or the very table being
   * written, unless the tear is deceptive; and a deceptive tear does load something else.
   */
  lemma TornOutcome(sequence: u32, es: seq<Entry>, k: nat)
    requires AllStorable(es) && |es| <= RECORD_CAPACITY && k <= SLOT_BYTES
    ensures var r := ReadSlot(Torn(Slot(sequence, es), k));
            r == None || r == Some(Snapshot(sequence, es)) <==> !Deceptive(sequence, es, k)
  {
    var w, body := Slot(sequence, es), Body(sequence, es);
    var t := Torn(w, k);
    var p := t[..PAYLOAD_BYTES];
    if k >= |body| {
      TornPrefix(w, k, |body|);
      assert w[..|body|] == body;
      ParseBody(p, sequence, es);
    } else if es == [] || k < LastTextAt(es) {
      TornEarly(sequence, es, k);
    } else {
      assert w[..k] == body[..k];
      TornCrc(w, k);
      TornTail(sequence, es, k);
      TornUnchanged(sequence, es, k);
      var s := Parse(p).value;
      if s == Snapshot(sequence, es) {
        ParseCanonical(p);
      } else if forall i :: k <= i < |body| ==> body[i] == 0xFF {
        ParseBody(p, sequence, es);
      }
    }
  }

  lemma TornUnchanged(sequence: u32, es: seq<Entry>, k: nat)
    requires AllStorable(es) && |es| <= RECORD_CAPACITY && k < |Body(sequence, es)|
    ensures var body := Body(sequence, es);
            body <= Torn(Slot(sequence, es), k)[..PAYLOAD_BYTES]
            <==> forall i :: k <= i < |body| ==> body[i] == 0xFF
  {
    var w, body := Slot(sequence, es), Body(sequence, es);
    var p := Torn(w, k)[..PAYLOAD_BYTES];
    assert forall i :: 0 <= i < k ==> p[i] == w[i] == body[i];
    assert forall i :: k <= i < |body| ==> p[i] == 0xFF;
    if body <= p {
      forall i | k <= i < |body|
        ensures body[i] == 0xFF
      {
        assert body[i] == p[..|body|][i];
      }
    }
    if forall i :: k <= i < |body| ==> body[i] == 0xFF {
      assert p[..|body|] == body;
    }
  }

  // ---------------------------------------------------------------- deceptive tears exist

  /** Any register can be steered to any other by one register width of input. */
  lemma Steer(p: Bits, c: Bits, target: Bits) returns (bits: Bits)
    requires Polynomial(p) && |c| == |target| == |p|
    ensures |bits| == |p| && Run(p, c, bits) == target
  {
    var z := Zero(|p|);
    var d := RunSurjective(p, target, z);
    bits := Xor(c, d);
    ConsumesItself(p, bits, bits);
    RunLinear(p, bits, d, bits, z);
    assert Xor(bits, d) == c && Xor(bits, z) == bits;
    assert Xor(z, target) == target;
  }

  /** Four octets suffice to steer the CRC-32 register. */
  lemma SteerOctets(c: Bits, target: Bits) returns (x: seq<u8>)
    requires |c| == |target| == 32
    ensures |x| == 4 && Run(Poly32(), c, Stream(x)) == target
  {
    var bits := Steer(Poly32(), c, target);
    Widths();
    BitsOfValue(bits);
    x := LittleEndian(Value(bits));
    LittleEndianStream(Value(bits));
  }

  /** Four octets that make the checksum of a cut write collide, whatever precedes them. */
  lemma SteerCut(before: seq<u8>) returns (x: seq<u8>)
    requires |before| + 4 <= PAYLOAD_BYTES
    ensures |x| == 4 && Collision(before + x)
  {
    var rest := Stream(Fill(0xFF, PAYLOAD_BYTES - (|before| + 4)));
    var goal := RunSurjective(Poly32(), Zero(32), rest);
    x := SteerOctets(Register32(before), goal);
    StreamConcat(before, x);
    RunConcat(Poly32(), Ones(32), Stream(before), Stream(x));
  }

  lemma OneRecordBody(sequence: u32, e: Entry)
    requires Storable(e)
    ensures Body(sequence, [e]) == Header(sequence, 1) + EncodeEntry(e)
  {
    assert [e][..0] == [] && [e][1..] == [];
    assert EncodeEntries([e]) == EncodeEntry(e) + EncodeEntries([e][1..]) == EncodeEntry(e);
  }

  /**
   * The checksum alone does not make an interrupted write safe: for every sequence number
   * there is a one-record table and a cut after which a different table is read.
   */
  lemma DeceptiveTearExists(sequence: u32) returns (e: Entry)
    ensures Storable(e) && 0 !in e.key && Deceptive(sequence, [e], 16)
  {
    var key: seq<u8> := [0x61];
    var before := Header(sequence, 1) + [1, 5] + key;
    var x := SteerCut(before);
    e := Entry(key, x + [0]);
    OneRecordBody(sequence, e);
    var body := Body(sequence, [e]);
    assert body == before + x + [0];
    assert body[..16] == before + x;
    assert [e][..0] == [] && body[16] == 0;
  }
}
