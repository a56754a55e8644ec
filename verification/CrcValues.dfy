/**
 * The machine words of `CrcWords` have the bits of the registers.  So the checksums of known
 * octets can be told: the published check values, and what the repository's tests expect.
 */
module CrcValues {
  import opened Sequences
  import opened Words
  import opened Lfsr
  import opened Crc
  import opened CrcWords

  /** Four bits, lowest first. */
  datatype Nibble = Nibble(b0: bool, b1: bool, b2: bool, b3: bool) {
    function List(): (b: Bits)
      ensures |b| == 4
    {
      [b0, b1, b2, b3]
    }

    function Number(): (n: nat)
      ensures n < 16
    {
      (if b0 then 1 else 0) + (if b1 then 2 else 0) + (if b2 then 4 else 0) + (if b3 then 8 else 0)
    }
  }

  lemma LowTwo(b0: bool, b1: bool, w: nat, rest: nat, n: nat)
    requires w == 4 * rest + (if b0 then 1 else 0) + (if b1 then 2 else 0)
    ensures BitsOf(w, n + 2) == [b0, b1] + BitsOf(rest, n)
  {
    var half: nat := 2 * rest + (if b1 then 1 else 0);
    assert w == 2 * half + (if b0 then 1 else 0);
    BitsOfDouble(half, b0, n + 1);
    BitsOfDouble(rest, b1, n);
    assert [b0] + ([b1] + BitsOf(rest, n)) == [b0, b1] + BitsOf(rest, n);
  }

  /** A number whose lowest four bits are a nibble. */
  lemma LowNibble(x: Nibble, rest: nat, n: nat)
    ensures BitsOf(x.Number() + 16 * rest, 4 + n) == x.List() + BitsOf(rest, n)
  {
    var half: nat := 4 * rest + (if x.b2 then 1 else 0) + (if x.b3 then 2 else 0);
    LowTwo(x.b0, x.b1, x.Number() + 16 * rest, half, n + 2);
    LowTwo(x.b2, x.b3, half, rest, n);
    Associate([x.b0, x.b1], [x.b2, x.b3], BitsOf(rest, n));
    assert x.List() == [x.b0, x.b1] + [x.b2, x.b3];
  }

  /** Sixteen bits. */
  datatype Half = Half(n0: Nibble, n1: Nibble, n2: Nibble, n3: Nibble) {
    function List(): (b: Bits)
      ensures |b| == 16
    {
      n0.List() + n1.List() + n2.List() + n3.List()
    }

    function Number(): (n: nat)
      ensures n < 0x1_0000
    {
      n0.Number() + 0x10 * n1.Number() + 0x100 * n2.Number() + 0x1000 * n3.Number()
    }
  }

  lemma Regrouped(a: Bits, b: Bits, c: Bits, d: Bits, rest: Bits)
    ensures a + (b + (c + (d + rest))) == a + b + c + d + rest
  {
    Associate(c, d, rest);
    Associate(b, c, d + rest);
    Associate(a, b, c + (d + rest));
    Associate(a + b, c, d + rest);
    Associate(a + b + c, d, rest);
  }

  lemma LowHalf(h: Half, rest: nat, n: nat)
    ensures BitsOf(h.Number() + 0x1_0000 * rest, 16 + n) == h.List() + BitsOf(rest, n)
  {
    var w3: nat := h.n3.Number() + 16 * rest;
    var w2: nat := h.n2.Number() + 16 * w3;
    var w1: nat := h.n1.Number() + 16 * w2;
    assert h.Number() + 0x1_0000 * rest == h.n0.Number() + 16 * w1;
    LowNibble(h.n0, w1, n + 12);
    LowNibble(h.n1, w2, n + 8);
    LowNibble(h.n2, w3, n + 4);
    LowNibble(h.n3, rest, n);
    Regrouped(h.n0.List(), h.n1.List(), h.n2.List(), h.n3.List(), BitsOf(rest, n));
  }

  lemma HalfBits(h: Half)
    ensures BitsOf(h.Number(), 16) == h.List()
  {
    LowHalf(h, 0, 0);
    assert BitsOf(0, 0) == [];
  }

  /** A nibble that shifts, taking in `next`, with the feedback at the bits of `p`. */
  function ShiftNibble(x: Nibble, next: bool, feedback: bool, p: Nibble): Nibble {
    Nibble(x.b1 != (feedback && p.b0), x.b2 != (feedback && p.b1),
           x.b3 != (feedback && p.b2), next != (feedback && p.b3))
  }

  function ShiftHalf(h: Half, next: bool, feedback: bool, p: Half): Half {
    Half(ShiftNibble(h.n0, h.n1.b0, feedback, p.n0), ShiftNibble(h.n1, h.n2.b0, feedback, p.n1),
         ShiftNibble(h.n2, h.n3.b0, feedback, p.n2), ShiftNibble(h.n3, next, feedback, p.n3))
  }

  /** Thirty-two bits. */
  datatype Full = Full(low: Half, high: Half) {
    function List(): (b: Bits)
      ensures |b| == 32
    {
      low.List() + high.List()
    }

    function Number(): (n: u32) {
      low.Number() + 0x1_0000 * high.Number()
    }
  }

  lemma FullBits(r: Full)
    ensures BitsOf(r.Number(), 32) == r.List()
  {
    LowHalf(r.low, r.high.Number(), 16);
    HalfBits(r.high);
  }

  function ShiftFull(r: Full, feedback: bool, p: Full): Full {
    Full(ShiftHalf(r.low, r.high.n0.b0, feedback, p.low), ShiftHalf(r.high, false, feedback, p.high))
  }

  /** The two polynomials, bit by bit. */
  const HALF16 := Half(Nibble(true, false, false, false), Nibble(false, false, false, false),
                       Nibble(false, false, false, false), Nibble(false, true, false, true))

  const LOW32 := Half(Nibble(false, false, false, false), Nibble(false, true, false, false),
                      Nibble(true, true, false, false), Nibble(false, false, false, true))

  const HIGH32 := Half(Nibble(false, false, false, true), Nibble(true, true, false, true),
                       Nibble(true, false, true, true), Nibble(false, true, true, true))

  const FULL32 := Full(LOW32, HIGH32)

  // ---------------------------------------------------------------- the circuits are the registers

  lemma Polynomials()
    ensures Poly16() == HALF16.List() && Poly32() == FULL32.List()
  {
    HalfBits(HALF16);
    FullBits(FULL32);
  }

  /** Where bit `i` of a half is found. */
  lemma HalfList(h: Half, i: nat)
    requires i < 16
    ensures h.List()[i] == if i < 4 then h.n0.List()[i] else if i < 8 then h.n1.List()[i - 4]
                           else if i < 12 then h.n2.List()[i - 8] else h.n3.List()[i - 12]
  {
  }

  lemma NibbleAt(x: Nibble, next: bool, feedback: bool, p: Nibble, i: nat)
    requires i < 4
    ensures ShiftNibble(x, next, feedback, p).List()[i] ==
            ((if i < 3 then x.List()[i + 1] else next) != (feedback && p.List()[i]))
  {
  }

  lemma HalfAt(h: Half, next: bool, feedback: bool, p: Half, i: nat)
    requires i < 16
    ensures ShiftHalf(h, next, feedback, p).List()[i] ==
            ((if i < 15 then h.List()[i + 1] else next) != (feedback && p.List()[i]))
  {
    HalfList(ShiftHalf(h, next, feedback, p), i);
    HalfList(p, i);
    if i < 15 {
      HalfList(h, i + 1);
    }
    if i < 4 {
      NibbleAt(h.n0, h.n1.b0, feedback, p.n0, i);
    } else if i < 8 {
      NibbleAt(h.n1, h.n2.b0, feedback, p.n1, i - 4);
    } else if i < 12 {
      NibbleAt(h.n2, h.n3.b0, feedback, p.n2, i - 8);
    } else {
      NibbleAt(h.n3, next, feedback, p.n3, i - 12);
    }
  }

  lemma StepAt(p: Bits, c: Bits, bit: bool, i: nat)
    requires |c| == |p| > i
    ensures Step(p, c, bit)[i] == ((i + 1 < |c| && c[i + 1]) != ((c[0] != bit) && p[i]))
  {
  }

  lemma FullAt(r: Full, feedback: bool, p: Full, i: nat)
    requires i < 32
    ensures ShiftFull(r, feedback, p).List()[i] == ((i < 31 && r.List()[i + 1]) != (feedback && p.List()[i]))
  {
    if i < 16 {
      HalfAt(r.low, r.high.n0.b0, feedback, p.low, i);
    } else {
      HalfAt(r.high, false, feedback, p.high, i - 16);
    }
  }

  lemma FullIsStep(r: Full, bit: bool)
    ensures Step(Poly32(), r.List(), bit) == ShiftFull(r, r.low.n0.b0 != bit, FULL32).List()
  {
    Polynomials();
    forall i | 0 <= i < 32
      ensures Step(Poly32(), r.List(), bit)[i] == ShiftFull(r, r.low.n0.b0 != bit, FULL32).List()[i]
    {
      StepAt(Poly32(), r.List(), bit, i);
      FullAt(r, r.low.n0.b0 != bit, FULL32, i);
    }
  }

  lemma HalfIsStep(h: Half, bit: bool)
    ensures Step(Poly16(), h.List(), bit) == ShiftHalf(h, false, h.n0.b0 != bit, HALF16).List()
  {
    Polynomials();
    forall i | 0 <= i < 16
      ensures Step(Poly16(), h.List(), bit)[i] == ShiftHalf(h, false, h.n0.b0 != bit, HALF16).List()[i]
    {
      StepAt(Poly16(), h.List(), bit, i);
      HalfAt(h, false, h.n0.b0 != bit, HALF16, i);
    }
  }

  // ---------------------------------------------------------------- words and their bits

  function Low32(c: bv32): Half {
    Half(Nibble(c & 0x0000_0001 != 0, c & 0x0000_0002 != 0, c & 0x0000_0004 != 0, c & 0x0000_0008 != 0),
         Nibble(c & 0x0000_0010 != 0, c & 0x0000_0020 != 0, c & 0x0000_0040 != 0, c & 0x0000_0080 != 0),
         Nibble(c & 0x0000_0100 != 0, c & 0x0000_0200 != 0, c & 0x0000_0400 != 0, c & 0x0000_0800 != 0),
         Nibble(c & 0x0000_1000 != 0, c & 0x0000_2000 != 0, c & 0x0000_4000 != 0, c & 0x0000_8000 != 0))
  }

  function High32(c: bv32): Half {
    Half(Nibble(c & 0x0001_0000 != 0, c & 0x0002_0000 != 0, c & 0x0004_0000 != 0, c & 0x0008_0000 != 0),
         Nibble(c & 0x0010_0000 != 0, c & 0x0020_0000 != 0, c & 0x0040_0000 != 0, c & 0x0080_0000 != 0),
         Nibble(c & 0x0100_0000 != 0, c & 0x0200_0000 != 0, c & 0x0400_0000 != 0, c & 0x0800_0000 != 0),
         Nibble(c & 0x1000_0000 != 0, c & 0x2000_0000 != 0, c & 0x4000_0000 != 0, c & 0x8000_0000 != 0))
  }

  /** The bits of a word. */
  function Full32(c: bv32): Full {
    Full(Low32(c), High32(c))
  }

  function Half16(c: bv16): Half {
    Half(Nibble(c & 0x0001 != 0, c & 0x0002 != 0, c & 0x0004 != 0, c & 0x0008 != 0),
         Nibble(c & 0x0010 != 0, c & 0x0020 != 0, c & 0x0040 != 0, c & 0x0080 != 0),
         Nibble(c & 0x0100 != 0, c & 0x0200 != 0, c & 0x0400 != 0, c & 0x0800 != 0),
         Nibble(c & 0x1000 != 0, c & 0x2000 != 0, c & 0x4000 != 0, c & 0x8000 != 0))
  }

  lemma LowAssembled(x: Half, y: Half, next: bool, f: bool)
    requires y.n0.b0 == x.n0.b1 && y.n0.b1 == x.n0.b2 && y.n0.b2 == x.n0.b3 && y.n0.b3 == x.n1.b0
    requires y.n1.b0 == x.n1.b1 && y.n1.b1 == (x.n1.b2 != f) && y.n1.b2 == x.n1.b3 && y.n1.b3 == x.n2.b0
    requires y.n2.b0 == (x.n2.b1 != f) && y.n2.b1 == (x.n2.b2 != f) && y.n2.b2 == x.n2.b3 && y.n2.b3 == x.n3.b0
    requires y.n3.b0 == x.n3.b1 && y.n3.b1 == x.n3.b2 && y.n3.b2 == x.n3.b3 && y.n3.b3 == (next != f)
    ensures y == ShiftHalf(x, next, f, LOW32)
  {
  }

  lemma HighAssembled(x: Half, y: Half, next: bool, f: bool)
    requires y.n0.b0 == x.n0.b1 && y.n0.b1 == x.n0.b2 && y.n0.b2 == x.n0.b3 && y.n0.b3 == (x.n1.b0 != f)
    requires y.n1.b0 == (x.n1.b1 != f) && y.n1.b1 == (x.n1.b2 != f) && y.n1.b2 == x.n1.b3 && y.n1.b3 == (x.n2.b0 != f)
    requires y.n2.b0 == (x.n2.b1 != f) && y.n2.b1 == x.n2.b2 && y.n2.b2 == (x.n2.b3 != f) && y.n2.b3 == (x.n3.b0 != f)
    requires y.n3.b0 == x.n3.b1 && y.n3.b1 == (x.n3.b2 != f) && y.n3.b2 == (x.n3.b3 != f) && y.n3.b3 == (next != f)
    ensures y == ShiftHalf(x, next, f, HIGH32)
  {
  }

  lemma HalfAssembled(x: Half, y: Half, next: bool, f: bool)
    requires y.n0.b0 == (x.n0.b1 != f) && y.n0.b1 == x.n0.b2 && y.n0.b2 == x.n0.b3 && y.n0.b3 == x.n1.b0
    requires y.n1.b0 == x.n1.b1 && y.n1.b1 == x.n1.b2 && y.n1.b2 == x.n1.b3 && y.n1.b3 == x.n2.b0
    requires y.n2.b0 == x.n2.b1 && y.n2.b1 == x.n2.b2 && y.n2.b2 == x.n2.b3 && y.n2.b3 == x.n3.b0
    requires y.n3.b0 == x.n3.b1 && y.n3.b1 == (x.n3.b2 != f) && y.n3.b2 == x.n3.b3 && y.n3.b3 == (next != f)
    ensures y == ShiftHalf(x, next, f, HALF16)
  {
  }

  lemma LowShifted(c: bv32, d: bv32, f: bool)
    requires Shifted32From0(c, d, f) && Shifted32From8(c, d, f)
    ensures Low32(d) == ShiftHalf(Low32(c), High32(c).n0.b0, f, LOW32)
  {
    LowAssembled(Low32(c), Low32(d), High32(c).n0.b0, f);
  }

  lemma HighShifted(c: bv32, d: bv32, next: bool, f: bool)
    requires Shifted32From16(c, d, f) && Shifted32From24(c, d, f) && !next
    ensures High32(d) == ShiftHalf(High32(c), next, f, HIGH32)
  {
    HighAssembled(High32(c), High32(d), next, f);
  }

  lemma HalfShifted(c: bv16, d: bv16, f: bool)
    requires Shifted16(c, d, f)
    ensures Half16(d) == ShiftHalf(Half16(c), false, f, HALF16)
  {
    HalfAssembled(Half16(c), Half16(d), false, f);
  }

  lemma FullShifted(c: bv32, d: bv32, next: bool, f: bool)
    requires Shifted32(c, d, f) && !next
    ensures Full32(d) == Full(ShiftHalf(Low32(c), High32(c).n0.b0, f, LOW32), ShiftHalf(High32(c), next, f, HIGH32))
  {
    LowShifted(c, d, f);
    HighShifted(c, d, next, f);
  }

  lemma ShiftedIsStep(x: Full, y: Full, bit: bool, next: bool, f: bool)
    requires f == (x.low.n0.b0 != bit) && !next
    requires y == Full(ShiftHalf(x.low, x.high.n0.b0, f, LOW32), ShiftHalf(x.high, next, f, HIGH32))
    ensures Step(Poly32(), x.List(), bit) == y.List()
  {
    FullIsStep(x, bit);
  }

  /** A shift of the word is a step of the register. */
  lemma Shift32IsStep(c: bv32, bit: bool)
    ensures Step(Poly32(), Full32(c).List(), bit) == Full32(Shift32(c, bit)).List()
  {
    Shift32Bits(c, bit);
    WordIsStep(c, Shift32(c, bit), bit, (c & 1 != 0) != bit);
  }

  lemma WordIsStep(c: bv32, d: bv32, bit: bool, f: bool)
    requires Shifted32(c, d, f) && f == ((c & 1 != 0) != bit)
    ensures Step(Poly32(), Full32(c).List(), bit) == Full32(d).List()
  {
    FullShifted(c, d, false, f);
    ShiftedIsStep(Full32(c), Full32(d), bit, false, f);
  }

  lemma Shift16IsStep(c: bv16, bit: bool)
    ensures Step(Poly16(), Half16(c).List(), bit) == Half16(Shift16(c, bit)).List()
  {
    Shift16Bits(c, bit);
    HalfShifted(c, Shift16(c, bit), (c & 1 != 0) != bit);
    HalfIsStep(Half16(c), bit);
  }

  /** The `k` low bits of an octet, taken in one by one. */
  function Taken32(c: bv32, b: bv8, k: nat): bv32
    decreases k
  {
    if k == 0 then c else Taken32(Shift32(c, b & 1 != 0), b >> 1, k - 1)
  }

  lemma OneTaken32(c: bv32, next: bv32, b: bv8, bit: bool, rest: bv8, n: nat, k: nat)
    requires n == b as nat && bit == (b & 1 != 0) && rest == b >> 1 && next == Shift32(c, bit)
    ensures rest as nat == n / 2 && Taken32(c, b, k + 1) == Taken32(next, rest, k)
    ensures Run(Poly32(), Full32(c).List(), BitsOf(n, k + 1)) == Run(Poly32(), Full32(next).List(), BitsOf(n / 2, k))
  {
    Half8(b);
    BitsOfCons(n, k + 1);
    Shift32IsStep(c, bit);
  }

  lemma {:induction false} TakenIsRun32(c: bv32, b: bv8, n: nat, k: nat)
    requires n == b as nat
    ensures Run(Poly32(), Full32(c).List(), BitsOf(n, k)) == Full32(Taken32(c, b, k)).List()
    decreases k
  {
    if k > 0 {
      var next := Shift32(c, b & 1 != 0);
      OneTaken32(c, next, b, b & 1 != 0, b >> 1, n, k - 1);
      TakenIsRun32(next, b >> 1, n / 2, k - 1);
    }
  }

  lemma TakenStep32(c: bv32, next: bv32, b: bv8, bit: bool, rest: bv8, k: nat)
    requires bit == (b & 1 != 0) && rest == b >> 1 && next == Shift32(c, bit)
    ensures Taken32(c, b, k + 1) == Taken32(next, rest, k)
  {
  }

  lemma TakenFour32(c: bv32, b: bv8, k: nat)
    ensures Taken32(c, b, k + 4) == Taken32(Four32(c, b), b >> 4, k)
  {
    var b1, b2, b3 := FourShifts8(b);
    var c1 := Shift32(c, b & 1 != 0);
    var c2 := Shift32(c1, b & 2 != 0);
    var c3 := Shift32(c2, b & 4 != 0);
    TakenStep32(c, c1, b, b & 1 != 0, b1, k + 3);
    TakenStep32(c1, c2, b1, b & 2 != 0, b2, k + 2);
    TakenStep32(c2, c3, b2, b & 4 != 0, b3, k + 1);
    TakenStep32(c3, Four32(c, b), b3, b & 8 != 0, b >> 4, k);
  }

  lemma Octet32IsRun(c: bv32, b: bv8, n: u8)
    requires n == b as nat
    ensures Run(Poly32(), Full32(c).List(), OctetBits(n)) == Full32(Octet32(c, b)).List()
  {
    TakenIsRun32(c, b, n, 8);
    TakenFour32(c, b, 4);
    TakenFour32(Four32(c, b), b >> 4, 0);
  }

  /** A path of the machine word is a path of the register. */
  lemma {:induction false} Path32Holds(t: seq<bv32>, b: seq<bv8>, s: seq<u8>, n: nat)
    requires Path32(t, b) && |s| == |b| && n <= |s| && forall i :: 0 <= i < |s| ==> s[i] == b[i] as nat
    ensures Register32(s[..n]) == Full32(t[n]).List()
    decreases n
  {
    if n == 0 {
      AllOnes32();
    } else {
      Path32Holds(t, b, s, n - 1);
      RegisterGrows(Poly32(), Ones(32), s, n - 1);
      Octet32IsRun(t[n - 1], b[n - 1], s[n - 1]);
    }
  }

  lemma AllOnes32()
    ensures Full32(0xFFFF_FFFF).List() == Ones(32)
  {
  }

  /** The `k` low bits of an octet, taken in one by one. */
  function Taken16(c: bv16, b: bv8, k: nat): bv16
    decreases k
  {
    if k == 0 then c else Taken16(Shift16(c, b & 1 != 0), b >> 1, k - 1)
  }

  lemma OneTaken16(c: bv16, next: bv16, b: bv8, bit: bool, rest: bv8, n: nat, k: nat)
    requires n == b as nat && bit == (b & 1 != 0) && rest == b >> 1 && next == Shift16(c, bit)
    ensures rest as nat == n / 2 && Taken16(c, b, k + 1) == Taken16(next, rest, k)
    ensures Run(Poly16(), Half16(c).List(), BitsOf(n, k + 1)) == Run(Poly16(), Half16(next).List(), BitsOf(n / 2, k))
  {
    Half8(b);
    BitsOfCons(n, k + 1);
    Shift16IsStep(c, bit);
  }

  lemma {:induction false} TakenIsRun16(c: bv16, b: bv8, n: nat, k: nat)
    requires n == b as nat
    ensures Run(Poly16(), Half16(c).List(), BitsOf(n, k)) == Half16(Taken16(c, b, k)).List()
    decreases k
  {
    if k > 0 {
      var next := Shift16(c, b & 1 != 0);
      OneTaken16(c, next, b, b & 1 != 0, b >> 1, n, k - 1);
      TakenIsRun16(next, b >> 1, n / 2, k - 1);
    }
  }

  lemma TakenStep16(c: bv16, next: bv16, b: bv8, bit: bool, rest: bv8, k: nat)
    requires bit == (b & 1 != 0) && rest == b >> 1 && next == Shift16(c, bit)
    ensures Taken16(c, b, k + 1) == Taken16(next, rest, k)
  {
  }

  lemma TakenFour16(c: bv16, b: bv8, k: nat)
    ensures Taken16(c, b, k + 4) == Taken16(Four16(c, b), b >> 4, k)
  {
    var b1, b2, b3 := FourShifts8(b);
    var c1 := Shift16(c, b & 1 != 0);
    var c2 := Shift16(c1, b & 2 != 0);
    var c3 := Shift16(c2, b & 4 != 0);
    TakenStep16(c, c1, b, b & 1 != 0, b1, k + 3);
    TakenStep16(c1, c2, b1, b & 2 != 0, b2, k + 2);
    TakenStep16(c2, c3, b2, b & 4 != 0, b3, k + 1);
    TakenStep16(c3, Four16(c, b), b3, b & 8 != 0, b >> 4, k);
  }

  lemma Octet16IsRun(c: bv16, b: bv8, n: u8)
    requires n == b as nat
    ensures Run(Poly16(), Half16(c).List(), OctetBits(n)) == Half16(Octet16(c, b)).List()
  {
    TakenIsRun16(c, b, n, 8);
    TakenFour16(c, b, 4);
    TakenFour16(Four16(c, b), b >> 4, 0);
  }

  /** A path of the machine word is a path of the register. */
  lemma {:induction false} Path16Holds(t: seq<bv16>, b: seq<bv8>, s: seq<u8>, n: nat)
    requires Path16(t, b) && |s| == |b| && n <= |s| && forall i :: 0 <= i < |s| ==> s[i] == b[i] as nat
    ensures Register16(s[..n]) == Half16(t[n]).List()
    decreases n
  {
    if n == 0 {
      AllOnes16();
    } else {
      Path16Holds(t, b, s, n - 1);
      RegisterGrows(Poly16(), Ones(16), s, n - 1);
      Octet16IsRun(t[n - 1], b[n - 1], s[n - 1]);
    }
  }

  lemma AllOnes16()
    ensures Half16(0xFFFF).List() == Ones(16)
  {
  }

  // ---------------------------------------------------------------- check values

  /** The characters 1 to 9, on which checksums are conventionally compared, and the octets 1 to 4. */
  const NINE: seq<u8> := [0x31, 0x32, 0x33, 0x34, 0x35, 0x36, 0x37, 0x38, 0x39]
  const FOUR: seq<u8> := [1, 2, 3, 4]

  lemma Complemented(s: seq<u8>, r: Full, w: u32)
    requires Register32(s) == r.List() && w == 0xFFFF_FFFF - r.Number()
    ensures Checksum32(s) == w
  {
    Widths();
    FullBits(r);
    ComplementBits(r.Number(), 32);
    BitsOfInjective(Checksum32(s), w, 32);
  }

  lemma Numbers()
    ensures Full32(0x340B_C6D9).Number() == 0x340B_C6D9 && Full32(0x49C3_0432).Number() == 0x49C3_0432
    ensures Half16(0x4B37).Number() == 0x4B37
  {
  }

  /** The published check value of CRC-32. */
  lemma CheckValue32()
    ensures Checksum32(NINE) == 0xCBF4_3926
  {
    var b: seq<bv8> := [0x31, 0x32, 0x33, 0x34, 0x35, 0x36, 0x37, 0x38, 0x39];
    var t := CrcWords.Nine32();
    Path32Holds(t, b, NINE, 9);
    assert NINE[..9] == NINE;
    Numbers();
    Complemented(NINE, Full32(0x340B_C6D9), 0xCBF4_3926);
  }

  /** The value that the repository's tests expect. */
  lemma TestedValue32()
    ensures Checksum32(FOUR) == 0xB63C_FBCD
  {
    var b: seq<bv8> := [0x01, 0x02, 0x03, 0x04];
    var t := CrcWords.OneToFour32();
    Path32Holds(t, b, FOUR, 4);
    assert FOUR[..4] == FOUR;
    Numbers();
    Complemented(FOUR, Full32(0x49C3_0432), 0xB63C_FBCD);
  }

  /** The published check value of CRC-16/MODBUS. */
  lemma CheckValue16()
    ensures Checksum16(NINE) == 0x4B37
  {
    var b: seq<bv8> := [0x31, 0x32, 0x33, 0x34, 0x35, 0x36, 0x37, 0x38, 0x39];
    var t := CrcWords.Nine16();
    Path16Holds(t, b, NINE, 9);
    assert NINE[..9] == NINE;
    Numbers();
    HalfBits(Half16(0x4B37));
    Widths();
    BitsOfInjective(Checksum16(NINE), 0x4B37, 16);
  }
}
