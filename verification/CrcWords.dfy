/**
 * The registers of both checksums as machine words, shifted and combined as the source does it,
 * and what they hold after octets that are known.
 */
module CrcWords {
  /** The register of CRC-32 after one bit. */
  function Shift32(c: bv32, bit: bool): bv32 {
    if (c & 1 != 0) != bit then (c >> 1) ^ 0xEDB8_8320 else c >> 1
  }

  /** The register of CRC-16 after one bit. */
  function Shift16(c: bv16, bit: bool): bv16 {
    if (c & 1 != 0) != bit then (c >> 1) ^ 0xA001 else c >> 1
  }

  /** Bits 0 to 7 one shift later. */
  predicate Shifted32From0(c: bv32, d: bv32, feedback: bool) {
    && (d & 0x0000_0001 != 0) == (c & 0x0000_0002 != 0)
    && (d & 0x0000_0002 != 0) == (c & 0x0000_0004 != 0)
    && (d & 0x0000_0004 != 0) == (c & 0x0000_0008 != 0)
    && (d & 0x0000_0008 != 0) == (c & 0x0000_0010 != 0)
    && (d & 0x0000_0010 != 0) == (c & 0x0000_0020 != 0)
    && (d & 0x0000_0020 != 0) == ((c & 0x0000_0040 != 0) != feedback)
    && (d & 0x0000_0040 != 0) == (c & 0x0000_0080 != 0)
    && (d & 0x0000_0080 != 0) == (c & 0x0000_0100 != 0)
  }

  /** Bits 8 to 15 one shift later. */
  predicate Shifted32From8(c: bv32, d: bv32, feedback: bool) {
    && (d & 0x0000_0100 != 0) == ((c & 0x0000_0200 != 0) != feedback)
    && (d & 0x0000_0200 != 0) == ((c & 0x0000_0400 != 0) != feedback)
    && (d & 0x0000_0400 != 0) == (c & 0x0000_0800 != 0)
    && (d & 0x0000_0800 != 0) == (c & 0x0000_1000 != 0)
    && (d & 0x0000_1000 != 0) == (c & 0x0000_2000 != 0)
    && (d & 0x0000_2000 != 0) == (c & 0x0000_4000 != 0)
    && (d & 0x0000_4000 != 0) == (c & 0x0000_8000 != 0)
    && (d & 0x0000_8000 != 0) == ((c & 0x0001_0000 != 0) != feedback)
  }

  /** Bits 16 to 23 one shift later. */
  predicate Shifted32From16(c: bv32, d: bv32, feedback: bool) {
    && (d & 0x0001_0000 != 0) == (c & 0x0002_0000 != 0)
    && (d & 0x0002_0000 != 0) == (c & 0x0004_0000 != 0)
    && (d & 0x0004_0000 != 0) == (c & 0x0008_0000 != 0)
    && (d & 0x0008_0000 != 0) == ((c & 0x0010_0000 != 0) != feedback)
    && (d & 0x0010_0000 != 0) == ((c & 0x0020_0000 != 0) != feedback)
    && (d & 0x0020_0000 != 0) == ((c & 0x0040_0000 != 0) != feedback)
    && (d & 0x0040_0000 != 0) == (c & 0x0080_0000 != 0)
    && (d & 0x0080_0000 != 0) == ((c & 0x0100_0000 != 0) != feedback)
  }

  /** Bits 24 to 31 one shift later. */
  predicate Shifted32From24(c: bv32, d: bv32, feedback: bool) {
    && (d & 0x0100_0000 != 0) == ((c & 0x0200_0000 != 0) != feedback)
    && (d & 0x0200_0000 != 0) == (c & 0x0400_0000 != 0)
    && (d & 0x0400_0000 != 0) == ((c & 0x0800_0000 != 0) != feedback)
    && (d & 0x0800_0000 != 0) == ((c & 0x1000_0000 != 0) != feedback)
    && (d & 0x1000_0000 != 0) == (c & 0x2000_0000 != 0)
    && (d & 0x2000_0000 != 0) == ((c & 0x4000_0000 != 0) != feedback)
    && (d & 0x4000_0000 != 0) == ((c & 0x8000_0000 != 0) != feedback)
    && (d & 0x8000_0000 != 0) == feedback
  }

  predicate Shifted32(c: bv32, d: bv32, feedback: bool) {
    && Shifted32From0(c, d, feedback)
    && Shifted32From8(c, d, feedback)
    && Shifted32From16(c, d, feedback)
    && Shifted32From24(c, d, feedback)
  }

  lemma Shift32Bits0(c: bv32, bit: bool)
    ensures Shifted32From0(c, Shift32(c, bit), (c & 1 != 0) != bit)
  {
  }

  lemma Shift32Bits8(c: bv32, bit: bool)
    ensures Shifted32From8(c, Shift32(c, bit), (c & 1 != 0) != bit)
  {
  }

  lemma Shift32Bits16(c: bv32, bit: bool)
    ensures Shifted32From16(c, Shift32(c, bit), (c & 1 != 0) != bit)
  {
  }

  lemma Shift32Bits24(c: bv32, bit: bool)
    ensures Shifted32From24(c, Shift32(c, bit), (c & 1 != 0) != bit)
  {
  }

  lemma Shift32Bits(c: bv32, bit: bool)
    ensures Shifted32(c, Shift32(c, bit), (c & 1 != 0) != bit)
  {
    Shift32Bits0(c, bit);
    Shift32Bits8(c, bit);
    Shift32Bits16(c, bit);
    Shift32Bits24(c, bit);
  }

  /** Bits 0 to 7 one shift later. */
  predicate Shifted16From0(c: bv16, d: bv16, feedback: bool) {
    && (d & 0x0001 != 0) == ((c & 0x0002 != 0) != feedback)
    && (d & 0x0002 != 0) == (c & 0x0004 != 0)
    && (d & 0x0004 != 0) == (c & 0x0008 != 0)
    && (d & 0x0008 != 0) == (c & 0x0010 != 0)
    && (d & 0x0010 != 0) == (c & 0x0020 != 0)
    && (d & 0x0020 != 0) == (c & 0x0040 != 0)
    && (d & 0x0040 != 0) == (c & 0x0080 != 0)
    && (d & 0x0080 != 0) == (c & 0x0100 != 0)
  }

  /** Bits 8 to 15 one shift later. */
  predicate Shifted16From8(c: bv16, d: bv16, feedback: bool) {
    && (d & 0x0100 != 0) == (c & 0x0200 != 0)
    && (d & 0x0200 != 0) == (c & 0x0400 != 0)
    && (d & 0x0400 != 0) == (c & 0x0800 != 0)
    && (d & 0x0800 != 0) == (c & 0x1000 != 0)
    && (d & 0x1000 != 0) == (c & 0x2000 != 0)
    && (d & 0x2000 != 0) == ((c & 0x4000 != 0) != feedback)
    && (d & 0x4000 != 0) == (c & 0x8000 != 0)
    && (d & 0x8000 != 0) == feedback
  }

  predicate Shifted16(c: bv16, d: bv16, feedback: bool) {
    && Shifted16From0(c, d, feedback)
    && Shifted16From8(c, d, feedback)
  }

  lemma Shift16Bits0(c: bv16, bit: bool)
    ensures Shifted16From0(c, Shift16(c, bit), (c & 1 != 0) != bit)
  {
  }

  lemma Shift16Bits8(c: bv16, bit: bool)
    ensures Shifted16From8(c, Shift16(c, bit), (c & 1 != 0) != bit)
  {
  }

  lemma Shift16Bits(c: bv16, bit: bool)
    ensures Shifted16(c, Shift16(c, bit), (c & 1 != 0) != bit)
  {
    Shift16Bits0(c, bit);
    Shift16Bits8(c, bit);
  }

  /** The lowest bit of an octet, and the others, as numbers. */
  lemma Half8(b: bv8)
    ensures (b & 1 != 0) == ((b as nat) % 2 == 1) && (b >> 1) as nat == (b as nat) / 2
  {
  }

  lemma FourShifts8(b: bv8) returns (b1: bv8, b2: bv8, b3: bv8)
    ensures b1 == b >> 1 && b2 == b1 >> 1 && b3 == b2 >> 1 && b3 >> 1 == b >> 4
    ensures (b1 & 1 != 0) == (b & 2 != 0) && (b2 & 1 != 0) == (b & 4 != 0) && (b3 & 1 != 0) == (b & 8 != 0)
  {
    b1, b2, b3 := b >> 1, b >> 1 >> 1, b >> 1 >> 1 >> 1;
  }

  /** The four lowest bits of an octet taken in, the lowest one first. */
  function Four32(c: bv32, b: bv8): bv32 {
    Shift32(Shift32(Shift32(Shift32(c, b & 1 != 0), b & 2 != 0), b & 4 != 0), b & 8 != 0)
  }

  function Four16(c: bv16, b: bv8): bv16 {
    Shift16(Shift16(Shift16(Shift16(c, b & 1 != 0), b & 2 != 0), b & 4 != 0), b & 8 != 0)
  }

  function Octet32(c: bv32, b: bv8): bv32 {
    Four32(Four32(c, b), b >> 4)
  }

  function Octet16(c: bv16, b: bv8): bv16 {
    Four16(Four16(c, b), b >> 4)
  }

  /** `t` lists what the register holds before each octet and after the last. */
  predicate Path32(t: seq<bv32>, s: seq<bv8>) {
    |t| == |s| + 1 && t[0] == 0xFFFF_FFFF && forall i :: 0 <= i < |s| ==> t[i + 1] == Octet32(t[i], s[i])
  }

  predicate Path16(t: seq<bv16>, s: seq<bv8>) {
    |t| == |s| + 1 && t[0] == 0xFFFF && forall i :: 0 <= i < |s| ==> t[i + 1] == Octet16(t[i], s[i])
  }

  /** The characters 1 to 9. */
  lemma Nine32() returns (t: seq<bv32>)
    ensures Path32(t, [0x31, 0x32, 0x33, 0x34, 0x35, 0x36, 0x37, 0x38, 0x39]) && t[9] == 0x340B_C6D9
  {
    t := [0xFFFF_FFFF, 0x7C23_1048, 0xB0AC_BB32, 0x77B7_9C2D, 0x641C_1F5C, 0x340A_C5E3, 0xF68D_2C9E, 0xAFFC_9660,
       0x651F_2550, 0x340B_C6D9];
    assert Octet32(0xFFFF_FFFF, 0x31) == 0x7C23_1048;
    assert Octet32(0x7C23_1048, 0x32) == 0xB0AC_BB32;
    assert Octet32(0xB0AC_BB32, 0x33) == 0x77B7_9C2D;
    assert Octet32(0x77B7_9C2D, 0x34) == 0x641C_1F5C;
    assert Octet32(0x641C_1F5C, 0x35) == 0x340A_C5E3;
    assert Octet32(0x340A_C5E3, 0x36) == 0xF68D_2C9E;
    assert Octet32(0xF68D_2C9E, 0x37) == 0xAFFC_9660;
    assert Octet32(0xAFFC_9660, 0x38) == 0x651F_2550;
    assert Octet32(0x651F_2550, 0x39) == 0x340B_C6D9;
  }

  /** The octets 1 to 4. */
  lemma OneToFour32() returns (t: seq<bv32>)
    ensures Path32(t, [0x01, 0x02, 0x03, 0x04]) && t[4] == 0x49C3_0432
  {
    t := [0xFFFF_FFFF, 0x5AFA_20E4, 0x4933_BD6D, 0xAA43_7FE2, 0x49C3_0432];
    assert Octet32(0xFFFF_FFFF, 0x01) == 0x5AFA_20E4;
    assert Octet32(0x5AFA_20E4, 0x02) == 0x4933_BD6D;
    assert Octet32(0x4933_BD6D, 0x03) == 0xAA43_7FE2;
    assert Octet32(0xAA43_7FE2, 0x04) == 0x49C3_0432;
  }

  lemma Nine16() returns (t: seq<bv16>)
    ensures Path16(t, [0x31, 0x32, 0x33, 0x34, 0x35, 0x36, 0x37, 0x38, 0x39]) && t[9] == 0x4B37
  {
    t := [0xFFFF, 0x947E, 0xF595, 0x7A75, 0x30BA, 0xA471, 0x32E4, 0x9D73, 0x37DD, 0x4B37];
    assert Octet16(0xFFFF, 0x31) == 0x947E;
    assert Octet16(0x947E, 0x32) == 0xF595;
    assert Octet16(0xF595, 0x33) == 0x7A75;
    assert Octet16(0x7A75, 0x34) == 0x30BA;
    assert Octet16(0x30BA, 0x35) == 0xA471;
    assert Octet16(0xA471, 0x36) == 0x32E4;
    assert Octet16(0x32E4, 0x37) == 0x9D73;
    assert Octet16(0x9D73, 0x38) == 0x37DD;
    assert Octet16(0x37DD, 0x39) == 0x4B37;
  }
}
