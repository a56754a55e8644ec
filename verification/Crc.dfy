/**
 * The two bit-serial checksum loops, each proved equal to its shift register of `Lfsr`.
 */
module Crc {
  import opened Words
  import opened Lfsr

  /** Polynomial of CRC-32, reflected (section 8 of RFC 1952). */
  const POLY32: u32 := 0xEDB8_8320
  /** Polynomial of CRC-16/MODBUS, reflected. */
  const POLY16: u16 := 0xA001

  ghost function Poly32(): (p: Bits)
    ensures Polynomial(p) && |p| == 32
  {
    TopBits();
    BitsOf(POLY32, 32)
  }

  ghost function Poly16(): (p: Bits)
    ensures Polynomial(p) && |p| == 16
  {
    TopBits();
    BitsOf(POLY16, 16)
  }

  lemma TopBits()
    ensures BitsOf(POLY32, 32)[31] && BitsOf(POLY16, 16)[15]
  {
    OctetsOfWord(POLY32);
    assert LittleEndian(POLY32)[3] == 0xED;
    assert BitsOf(0xED, 8)[7];
    FirstOctet(POLY16, 8);
    assert POLY16 / 0x100 == 0xA0;
    assert BitsOf(0xA0, 8)[7];
  }

  /** The register of CRC-32 after `s`. */
  ghost function Register32(s: seq<u8>): (r: Bits)
    ensures |r| == 32
  {
    Run(Poly32(), Ones(32), Stream(s))
  }

  /** The register of CRC-16/MODBUS after `s`. */
  ghost function Register16(s: seq<u8>): (r: Bits)
    ensures |r| == 16
  {
    Run(Poly16(), Ones(16), Stream(s))
  }

  ghost function Checksum32(s: seq<u8>): (r: u32)
    ensures BitsOf(r, 32) == Xor(Register32(s), Ones(32))
  {
    Widths();
    var b := Xor(Register32(s), Ones(32));
    BitsOfValue(b);
    Value(b)
  }

  ghost function Checksum16(s: seq<u8>): (r: u16)
    ensures BitsOf(r, 16) == Register16(s)
  {
    Widths();
    BitsOfValue(Register16(s));
    Value(Register16(s))
  }

  // ---------------------------------------------------------------- the loops

  /** One shift of an `n`-bit register held in a word. */
  function ShiftWord(poly: nat, c: nat, n: nat): nat {
    if c % 2 == 1 then XorWord(c / 2, poly, n) else c / 2
  }

  lemma ShiftWordIsStep(poly: nat, c: nat, n: nat)
    requires n > 0 && c < Pow2(n)
    ensures ShiftWord(poly, c, n) < Pow2(n)
    ensures BitsOf(ShiftWord(poly, c, n), n) == Step(BitsOf(poly, n), BitsOf(c, n), false)
  {
    XorWordBits(c / 2, poly, n);
    Widened(c / 2, n - 1, 1);
    var half, bits := BitsOf(c / 2, n), BitsOf(c, n);
    assert half == bits[1..] + [false];
    assert forall i :: 0 <= i < n ==> half[i] == (i + 1 < n && bits[i + 1]);
  }

  lemma AndMask(poly: nat, n: nat)
    requires poly < Pow2(n)
    ensures AndWord(poly, Pow2(n) - 1, n) == poly && AndWord(poly, 0, n) == 0
  {
    var p := BitsOf(poly, n);
    BitsOfAllOnes(n);
    assert And(p, Ones(n)) == p;
    ValueOfBits(poly, n);
    BitsOfNothing(n);
    assert And(p, Zero(n)) == Zero(n);
    ValueOfBits(0, n);
  }

  lemma XorNothing(c: nat, n: nat)
    requires c < Pow2(n)
    ensures XorWord(c, 0, n) == c
  {
    BitsOfNothing(n);
    assert Xor(BitsOf(c, n), Zero(n)) == BitsOf(c, n);
    ValueOfBits(c, n);
  }

  /** The source's masked form: the mask is all ones exactly when the lowest bit is set. */
  lemma MaskedShift(poly: nat, c: nat, mask: nat, n: nat)
    requires n > 0 && c < Pow2(n) && poly < Pow2(n)
    requires mask == if c % 2 == 1 then Pow2(n) - 1 else 0
    ensures XorWord(c / 2, AndWord(poly, mask, n), n) == ShiftWord(poly, c, n)
  {
    AndMask(poly, n);
    if c % 2 == 0 {
      XorNothing(c / 2, n);
    }
  }

  /** The register while an octet is being shifted in: `k` bits consumed, the rest pending. */
  ghost function Pending(p: Bits, c: Bits, b: u8, k: nat): (r: Bits)
    requires |c| == |p| >= 8 && k <= 8
    ensures |r| == |p|
  {
    Xor(Run(p, c, OctetBits(b)[..k]), OctetBits(b)[k..] + Zero(|p| - 8 + k))
  }

  lemma PendingStarts(p: Bits, c: Bits, b: u8)
    requires |c| == |p| >= 8
    ensures Pending(p, c, b, 0) == Xor(c, BitsOf(b, |p|))
  {
    Widths();
    Widened(b, 8, |p| - 8);
    assert OctetBits(b)[..0] == [] && OctetBits(b)[0..] == OctetBits(b);
  }

  lemma StepTakesLowestBit(p: Bits, c: Bits, w: Bits)
    requires |c| == |w| == |p| > 0
    ensures Step(p, Xor(c, w), false) == Xor(Step(p, c, w[0]), w[1..] + [false])
  {
  }

  lemma PendingAdvances(p: Bits, c: Bits, b: u8, k: nat)
    requires |c| == |p| >= 8 && k < 8
    ensures Step(p, Pending(p, c, b, k), false) == Pending(p, c, b, k + 1)
  {
    var t, z := OctetBits(b), Zero(|p| - 8 + k);
    StepTakesLowestBit(p, Run(p, c, t[..k]), t[k..] + z);
    assert t[..k + 1] == t[..k] + [t[k]];
    RunConcat(p, c, t[..k], [t[k]]);
    assert [t[k]][1..] == [];
    assert (t[k..] + z)[1..] + [false] == t[k + 1..] + Zero(|p| - 8 + k + 1);
  }

  lemma PendingEnds(p: Bits, c: Bits, b: u8)
    requires |c| == |p| >= 8
    ensures Pending(p, c, b, 8) == Run(p, c, OctetBits(b))
  {
    assert OctetBits(b)[..8] == OctetBits(b) && OctetBits(b)[8..] + Zero(|p|) == Zero(|p|);
  }

  lemma RegisterGrows(p: Bits, c: Bits, s: seq<u8>, i: nat)
    requires |c| == |p| > 0 && i < |s|
    ensures Run(p, c, Stream(s[..i + 1])) == Run(p, Run(p, c, Stream(s[..i])), OctetBits(s[i]))
  {
    assert s[..i + 1] == s[..i] + [s[i]];
    StreamConcat(s[..i], [s[i]]);
    assert [s[i]][1..] == [];
    assert Stream([s[i]]) == OctetBits(s[i]);
    RunConcat(p, c, Stream(s[..i]), Stream([s[i]]));
  }

  lemma ComplementIsChecksum(crc: u32, s: seq<u8>)
    requires BitsOf(crc, 32) == Register32(s)
    ensures 0xFFFF_FFFF - crc == Checksum32(s)
  {
    Widths();
    ComplementBits(crc, 32);
    BitsOfInjective(0xFFFF_FFFF - crc, Checksum32(s), 32);
  }

  /** `crc32`: the checksum of the first `size` octets. */
  method Crc32(data: array<u8>, size: nat) returns (result: u32)
    requires size <= data.Length
    ensures result == Checksum32(data[..size])
  {
    Widths();
    BitsOfAllOnes(32);
    var crc: u32 := 0xFFFF_FFFF;
    var index := 0;
    while index < size
      invariant 0 <= index <= size
      invariant BitsOf(crc, 32) == Register32(data[..index])
    {
      crc := ShiftOctet32(crc, data[index]);
      RegisterGrows(Poly32(), Ones(32), data[..size], index);
      assert data[..size][..index] == data[..index] && data[..size][..index + 1] == data[..index + 1];
      index := index + 1;
    }
    result := 0xFFFF_FFFF - crc;
    ComplementIsChecksum(crc, data[..size]);
  }

  /** The loop body of `crc32`. */
  method ShiftOctet32(before: u32, octet: u8) returns (crc: u32)
    ensures BitsOf(crc, 32) == Run(Poly32(), BitsOf(before, 32), OctetBits(octet))
  {
    Widths();
    ghost var p, c := Poly32(), BitsOf(before, 32);
    crc := XorWord(before, octet, 32);
    XorWordBits(before, octet, 32);
    PendingStarts(p, c, octet);
    var bit := 0;
    while bit < 8
      invariant 0 <= bit <= 8
      invariant BitsOf(crc, 32) == Pending(p, c, octet, bit)
    {
      var mask: u32 := (0x1_0000_0000 - crc % 2) % 0x1_0000_0000;
      MaskedShift(POLY32, crc, mask, 32);
      ShiftWordIsStep(POLY32, crc, 32);
      PendingAdvances(p, c, octet, bit);
      crc := XorWord(crc / 2, AndWord(POLY32, mask, 32), 32);
      bit := bit + 1;
    }
    PendingEnds(p, c, octet);
  }

  /** `crc16_modbus`: the checksum of the first `size` octets. */
  method Crc16(data: array<u8>, size: nat) returns (crc: u16)
    requires size <= data.Length
    ensures crc == Checksum16(data[..size])
  {
    Widths();
    BitsOfAllOnes(16);
    crc := 0xFFFF;
    var index := 0;
    while index < size
      invariant 0 <= index <= size
      invariant BitsOf(crc, 16) == Register16(data[..index])
    {
      crc := ShiftOctet16(crc, data[index]);
      RegisterGrows(Poly16(), Ones(16), data[..size], index);
      assert data[..size][..index] == data[..index] && data[..size][..index + 1] == data[..index + 1];
      index := index + 1;
    }
    BitsOfInjective(crc, Checksum16(data[..size]), 16);
  }

  /** The loop body of `crc16_modbus`. */
  method ShiftOctet16(before: u16, octet: u8) returns (crc: u16)
    ensures BitsOf(crc, 16) == Run(Poly16(), BitsOf(before, 16), OctetBits(octet))
  {
    Widths();
    ghost var p, c := Poly16(), BitsOf(before, 16);
    crc := XorWord(before, octet, 16);
    XorWordBits(before, octet, 16);
    PendingStarts(p, c, octet);
    var bit := 0;
    while bit < 8
      invariant 0 <= bit <= 8
      invariant BitsOf(crc, 16) == Pending(p, c, octet, bit)
    {
      ShiftWordIsStep(POLY16, crc, 16);
      PendingAdvances(p, c, octet, bit);
      crc := if crc % 2 != 0 then XorWord(crc / 2, POLY16, 16) else crc / 2;
      bit := bit + 1;
    }
    PendingEnds(p, c, octet);
  }

  // ---------------------------------------------------------------- detection

  /** What remains in the register after a checksummed block does not depend on the block. */
  lemma Residue32(s: seq<u8>)
    ensures Register32(s + LittleEndian(Checksum32(s))) == Run(Poly32(), Zero(32), Ones(32))
  {
    var p, r := Poly32(), Register32(s);
    var crc := LittleEndian(Checksum32(s));
    StreamConcat(s, crc);
    LittleEndianStream(Checksum32(s));
    RunConcat(p, Ones(32), Stream(s), Stream(crc));
    RunLinear(p, r, Zero(32), r, Ones(32));
    ConsumesItself(p, r, r);
    assert Xor(r, Zero(32)) == r;
    assert Xor(Zero(32), Run(p, Zero(32), Ones(32))) == Run(p, Zero(32), Ones(32));
  }

  /** A block and its CRC-32 cannot both be right before and after a burst of up to 32 bits. */
  lemma Crc32DetectsBursts(s: seq<u8>, t: seq<u8>)
    ensures !Burst(s + LittleEndian(Checksum32(s)), t + LittleEndian(Checksum32(t)), 32)
  {
    var v, w := s + LittleEndian(Checksum32(s)), t + LittleEndian(Checksum32(t));
    if Burst(v, w, 32) {
      Residue32(s);
      Residue32(t);
      BurstChangesRegister(Poly32(), Ones(32), v, w);
    }
  }

  /** The two octets of `w`, least significant first. */
  function LittleEndian16(w: u16): (r: seq<u8>)
    ensures |r| == 2
  {
    [w % 0x100, w / 0x100]
  }

  lemma LittleEndian16Stream(w: u16)
    ensures Stream(LittleEndian16(w)) == BitsOf(w, 16)
  {
    var s := LittleEndian16(w);
    FirstOctet(w, 8);
    assert s[1..][1..] == [];
    assert Stream(s[1..]) == OctetBits(s[1]);
  }

  /** CRC-16/MODBUS leaves an empty register after a checksummed block. */
  lemma Residue16(s: seq<u8>)
    ensures Register16(s + LittleEndian16(Checksum16(s))) == Zero(16)
  {
    var p, crc := Poly16(), LittleEndian16(Checksum16(s));
    StreamConcat(s, crc);
    LittleEndian16Stream(Checksum16(s));
    RunConcat(p, Ones(16), Stream(s), Stream(crc));
    ConsumesItself(p, Register16(s), Register16(s));
  }

  /** A block and its CRC-16 cannot both be right before and after a burst of up to 16 bits. */
  lemma Crc16DetectsBursts(s: seq<u8>, t: seq<u8>)
    ensures !Burst(s + LittleEndian16(Checksum16(s)), t + LittleEndian16(Checksum16(t)), 16)
  {
    var v, w := s + LittleEndian16(Checksum16(s)), t + LittleEndian16(Checksum16(t));
    if Burst(v, w, 16) {
      Residue16(s);
      Residue16(t);
      BurstChangesRegister(Poly16(), Ones(16), v, w);
    }
  }
}
