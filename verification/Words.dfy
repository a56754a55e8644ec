/**
 * Machine words as bounded naturals, their bits, and their little-endian octets.
 * The bitwise operators of the source are defined on the lists of bits.
 */
module Words {
  import opened Sequences

  type u8 = x: int | 0 <= x < 0x100
  type u16 = x: int | 0 <= x < 0x1_0000
  type u32 = x: int | 0 <= x < 0x1_0000_0000

  /** The increment of a 32-bit counter. */
  function Successor(x: u32): u32 {
    if x == 0xFFFF_FFFF then 0 else x + 1
  }

  /** A 32-bit counter that started at zero, after `n` increments. */
  function Counter(n: nat): u32 {
    if n == 0 then 0 else Successor(Counter(n - 1))
  }

  lemma {:induction false} CounterIsModulo(n: nat)
    ensures Counter(n) == n % 0x1_0000_0000
  {
    if n > 0 {
      CounterIsModulo(n - 1);
    }
  }

  /** Bits, lowest first. */
  type Bits = seq<bool>

  function Pow2(n: nat): (r: nat)
    ensures r > 0
  {
    if n == 0 then 1 else 2 * Pow2(n - 1)
  }

  function BitAt(w: nat, i: nat): bool
    decreases i
  {
    if i == 0 then w % 2 == 1 else BitAt(w / 2, i - 1)
  }

  /** The `n` low bits of `w`. */
  function BitsOf(w: nat, n: nat): (r: Bits)
    ensures |r| == n && forall i :: 0 <= i < n ==> r[i] == BitAt(w, i)
  {
    seq(n, i requires 0 <= i => BitAt(w, i))
  }

  lemma BitsOfCons(w: nat, n: nat)
    requires n > 0
    ensures BitsOf(w, n) == [w % 2 == 1] + BitsOf(w / 2, n - 1)
    ensures BitsOf(w, n)[0] == (w % 2 == 1) && BitsOf(w, n)[1..] == BitsOf(w / 2, n - 1)
  {
    var s, t := BitsOf(w, n), [w % 2 == 1] + BitsOf(w / 2, n - 1);
    forall i | 0 <= i < n
      ensures s[i] == t[i]
    {
      assert BitAt(w, i) == if i == 0 then w % 2 == 1 else BitAt(w / 2, i - 1);
    }
  }

  /** The number whose bits are `b`. */
  function Value(b: Bits): (r: nat)
    ensures r < Pow2(|b|)
  {
    if b == [] then 0 else (if b[0] then 1 else 0) + 2 * Value(b[1..])
  }

  lemma {:induction false} ValueOfBits(w: nat, n: nat)
    requires w < Pow2(n)
    ensures Value(BitsOf(w, n)) == w
    decreases n
  {
    if n > 0 {
      BitsOfCons(w, n);
      ValueOfBits(w / 2, n - 1);
      assert BitsOf(w, n)[1..] == BitsOf(w / 2, n - 1);
    }
  }

  lemma {:induction false} BitsOfValue(b: Bits)
    ensures BitsOf(Value(b), |b|) == b
  {
    if b != [] {
      BitsOfCons(Value(b), |b|);
      BitsOfValue(b[1..]);
      assert Value(b) / 2 == Value(b[1..]);
      assert b == [b[0]] + b[1..];
    }
  }

  lemma BitsOfInjective(v: nat, w: nat, n: nat)
    requires v < Pow2(n) && w < Pow2(n) && BitsOf(v, n) == BitsOf(w, n)
    ensures v == w
  {
    ValueOfBits(v, n);
    ValueOfBits(w, n);
  }

  lemma Widths()
    ensures Pow2(8) == 0x100 && Pow2(16) == 0x1_0000 && Pow2(32) == 0x1_0000_0000
  {
    assert Pow2(4) == 16;
    assert Pow2(12) == 0x1000;
    assert Pow2(20) == 0x10_0000 && Pow2(24) == 0x100_0000 && Pow2(28) == 0x1000_0000;
  }

  function Zero(n: nat): (r: Bits)
    ensures |r| == n && forall i :: 0 <= i < n ==> !r[i]
  {
    seq(n, _ => false)
  }

  function Ones(n: nat): (r: Bits)
    ensures |r| == n && forall i :: 0 <= i < n ==> r[i]
  {
    seq(n, _ => true)
  }

  function Xor(a: Bits, b: Bits): (r: Bits)
    requires |a| == |b|
    ensures |r| == |a| && forall i :: 0 <= i < |a| ==> r[i] == (a[i] != b[i])
  {
    seq(|a|, i requires 0 <= i < |a| => a[i] != b[i])
  }

  function And(a: Bits, b: Bits): (r: Bits)
    requires |a| == |b|
    ensures |r| == |a| && forall i :: 0 <= i < |a| ==> r[i] == (a[i] && b[i])
  {
    seq(|a|, i requires 0 <= i < |a| => a[i] && b[i])
  }

  /** Exclusive or of two `n`-bit words. */
  function XorWord(a: nat, b: nat, n: nat): (r: nat)
    ensures r < Pow2(n)
  {
    Value(Xor(BitsOf(a, n), BitsOf(b, n)))
  }

  /** Bitwise and of two `n`-bit words. */
  function AndWord(a: nat, b: nat, n: nat): (r: nat)
    ensures r < Pow2(n)
  {
    Value(And(BitsOf(a, n), BitsOf(b, n)))
  }

  lemma XorWordBits(a: nat, b: nat, n: nat)
    ensures BitsOf(XorWord(a, b, n), n) == Xor(BitsOf(a, n), BitsOf(b, n))
  {
    BitsOfValue(Xor(BitsOf(a, n), BitsOf(b, n)));
  }

  lemma OnesCons(n: nat)
    ensures Ones(n + 1) == [true] + Ones(n)
  {
  }

  /** Doubling and adding a bit, seen from below. */
  lemma BitsOfDouble(w: nat, bit: bool, n: nat)
    ensures BitsOf(2 * w + (if bit then 1 else 0), n + 1) == [bit] + BitsOf(w, n)
  {
    BitsOfCons(2 * w + (if bit then 1 else 0), n + 1);
  }

  lemma {:induction false} BitsOfAllOnes(n: nat)
    ensures BitsOf(Pow2(n) - 1, n) == Ones(n)
  {
    if n > 0 {
      BitsOfDouble(Pow2(n - 1) - 1, true, n - 1);
      BitsOfAllOnes(n - 1);
      OnesCons(n - 1);
    }
  }

  lemma {:induction false} BitsOfNothing(n: nat)
    ensures BitsOf(0, n) == Zero(n)
  {
    if n > 0 {
      BitsOfCons(0, n);
      BitsOfNothing(n - 1);
      assert Zero(n) == [false] + Zero(n - 1);
    }
  }

  lemma XorOnesCons(b: Bits, bit: bool)
    ensures Xor([bit] + b, Ones(|b| + 1)) == [!bit] + Xor(b, Ones(|b|))
  {
  }

  lemma ComplementStep(half: nat, bit: bool, n: nat)
    requires half < Pow2(n)
    ensures Pow2(n + 1) - 1 - (2 * half + (if bit then 1 else 0)) == 2 * (Pow2(n) - 1 - half) + (if !bit then 1 else 0)
  {
  }

  /** The complement of an `n`-bit word. */
  lemma {:induction false} ComplementBits(w: nat, n: nat)
    requires w < Pow2(n)
    ensures BitsOf(Pow2(n) - 1 - w, n) == Xor(BitsOf(w, n), Ones(n))
  {
    if n > 0 {
      var half, bit := w / 2, w % 2 == 1;
      ComplementStep(half, bit, n - 1);
      BitsOfDouble(half, bit, n - 1);
      BitsOfDouble(Pow2(n - 1) - 1 - half, !bit, n - 1);
      ComplementBits(half, n - 1);
      XorOnesCons(BitsOf(half, n - 1), bit);
    }
  }

  lemma {:induction false} NoBitAbove(w: nat, n: nat, i: nat)
    requires w < Pow2(n) && i >= n
    ensures !BitAt(w, i)
    decreases i
  {
    if i > 0 {
      NoBitAbove(w / 2, if n == 0 then 0 else n - 1, i - 1);
    }
  }

  /** A word of at most `n` bits keeps them, and gains clear ones, when widened. */
  lemma Widened(w: nat, n: nat, m: nat)
    requires w < Pow2(n)
    ensures BitsOf(w, n + m) == BitsOf(w, n) + Zero(m)
  {
    var s, t := BitsOf(w, n + m), BitsOf(w, n) + Zero(m);
    forall i | 0 <= i < n + m
      ensures s[i] == t[i]
    {
      if i >= n {
        NoBitAbove(w, n, i);
      }
    }
  }

  /** `w` without its `n` lowest bits. */
  function Halve(w: nat, n: nat): nat
    decreases n
  {
    if n == 0 then w else Halve(w / 2, n - 1)
  }

  lemma SplitStep(w: nat, n: nat, m: nat, rest: Bits)
    requires BitsOf(w / 2, n + m) == BitsOf(w / 2, n) + rest
    ensures BitsOf(w, n + 1 + m) == BitsOf(w, n + 1) + rest
  {
    BitsOfCons(w, n + 1);
    BitsOfCons(w, n + 1 + m);
    Associate([w % 2 == 1], BitsOf(w / 2, n), rest);
  }

  lemma {:induction false} SplitBits(w: nat, n: nat, m: nat)
    ensures BitsOf(w, n + m) == BitsOf(w, n) + BitsOf(Halve(w, n), m)
    decreases n
  {
    if n > 0 {
      SplitBits(w / 2, n - 1, m);
      SplitStep(w, n - 1, m, BitsOf(Halve(w, n), m));
    } else {
      assert BitsOf(w, 0) + BitsOf(w, m) == BitsOf(w, m);
    }
  }

  lemma DivTwice(w: nat, d: int)
    requires d > 0
    ensures w / (2 * d) == (w / 2) / d
  {
    var h: nat := w / 2;
    var q: nat, r: nat := h / d, h % d;
    assert h == q * d + r;
    assert w == (2 * d) * q + (2 * r + w % 2);
    DivUnique(w, 2 * d, q, 2 * r + w % 2);
  }

  lemma AtLeastOneTime(d: int, e: int)
    requires d > 0
    ensures e >= 1 ==> d * e >= d
    ensures e <= -1 ==> d * e <= -d
  {
  }

  lemma DivUnique(w: int, d: int, q: int, r: int)
    requires w == d * q + r && 0 <= r < d
    ensures w / d == q
  {
    var e := w / d - q;
    assert d * e == d * (w / d) - d * q;
    assert -d < d * e < d;
    AtLeastOneTime(d, e);
  }

  lemma {:induction false} BitsOfMod(w: nat, n: nat)
    ensures BitsOf(w % Pow2(n), n) == BitsOf(w, n)
  {
    if n > 0 {
      BitsOfCons(w, n);
      BitsOfCons(w % Pow2(n), n);
      ModHalf(w, Pow2(n - 1));
      BitsOfMod(w / 2, n - 1);
    }
  }

  lemma ModHalf(w: nat, d: nat)
    requires d > 0
    ensures (w % (2 * d)) % 2 == w % 2 && (w % (2 * d)) / 2 == (w / 2) % d
  {
    DivTwice(w, d);
    var q := w / (2 * d);
    assert w == (2 * d) * q + w % (2 * d);
    assert w % (2 * d) == w - 2 * (d * q);
    assert (w / 2) == d * q + (w / 2) % d;
  }

  // ---------------------------------------------------------------- octets

  /** The octets of `w`, least significant first. */
  function LittleEndian(w: u32): (r: seq<u8>)
    ensures |r| == 4
  {
    var b1: int, b2: int, b3: int := w / 0x100, w / 0x1_0000, w / 0x100_0000;
    [w % 0x100, b1 % 0x100, b2 % 0x100, b3]
  }

  /** The word whose little-endian octets are `s`. */
  function Word(s: seq<u8>): u32
    requires |s| == 4
  {
    var b0: int, b1: int, b2: int, b3: int := s[0], s[1], s[2], s[3];
    b0 + 0x100 * b1 + 0x1_0000 * b2 + 0x100_0000 * b3
  }

  lemma WordOfLittleEndian(w: u32)
    ensures Word(LittleEndian(w)) == w
  {
    var a, b, c := w / 0x100, w / 0x1_0000, w / 0x100_0000;
    assert b == a / 0x100 && c == b / 0x100;
    assert w == 0x100 * a + w % 0x100 && a == 0x100 * b + a % 0x100 && b == 0x100 * c + b % 0x100;
  }

  lemma DivMod(w: nat, d: int, q: int, r: int)
    requires w == d * q + r && 0 <= r < d
    ensures w / d == q && w % d == r
  {
    DivUnique(w, d, q, r);
  }

  lemma LittleEndianOfWord(s: seq<u8>)
    requires |s| == 4
    ensures LittleEndian(Word(s)) == s
  {
    var w, b0: int, b1: int, b2: int, b3: int := Word(s), s[0], s[1], s[2], s[3];
    var top := b2 + 0x100 * b3;
    DivMod(w, 0x100, b1 + 0x100 * top, b0);
    DivMod(b1 + 0x100 * top, 0x100, top, b1);
    DivMod(w, 0x1_0000, top, b0 + 0x100 * b1);
    DivMod(top, 0x100, b3, b2);
    DivMod(w, 0x100_0000, b3, b0 + 0x100 * b1 + 0x1_0000 * b2);
  }

  function OctetBits(b: u8): (r: Bits)
    ensures |r| == 8
  {
    BitsOf(b, 8)
  }

  /** The bits of the octets `s`, in transmission order. */
  function Stream(s: seq<u8>): (r: Bits)
    ensures |r| == 8 * |s|
  {
    if s == [] then [] else OctetBits(s[0]) + Stream(s[1..])
  }

  lemma {:induction false} StreamConcat(a: seq<u8>, b: seq<u8>)
    ensures Stream(a + b) == Stream(a) + Stream(b)
  {
    if a == [] {
      assert a + b == b;
    } else {
      assert (a + b)[1..] == a[1..] + b;
      StreamConcat(a[1..], b);
    }
  }

  lemma {:induction false} StreamInjective(s: seq<u8>, t: seq<u8>)
    requires |s| == |t| && Stream(s) == Stream(t)
    ensures s == t
  {
    if s != [] {
      assert Stream(s)[..8] == OctetBits(s[0]) && Stream(t)[..8] == OctetBits(t[0]);
      assert Stream(s)[8..] == Stream(s[1..]) && Stream(t)[8..] == Stream(t[1..]);
      Widths();
      BitsOfInjective(s[0], t[0], 8);
      StreamInjective(s[1..], t[1..]);
    }
  }

  /** Bit `j` of octet `k`. */
  lemma {:induction false} StreamAt(s: seq<u8>, k: nat, j: nat)
    requires k < |s| && j < 8
    ensures Stream(s)[8 * k + j] == OctetBits(s[k])[j]
    decreases k
  {
    var first, rest := OctetBits(s[0]), Stream(s[1..]);
    assert Stream(s) == first + rest;
    if k > 0 {
      StreamAt(s[1..], k - 1, j);
      assert (first + rest)[8 * k + j] == rest[8 * (k - 1) + j];
    }
  }

  lemma HalveEight(w: nat)
    ensures Halve(w, 8) == w / 0x100
  {
    assert Halve(w, 8) == Halve(w / 2 / 2 / 2 / 2, 4);
    assert w / 2 / 2 / 2 / 2 == w / 16 && w / 16 / 2 / 2 / 2 / 2 == w / 0x100;
  }

  /** One octet's bits, then the rest. */
  lemma FirstOctet(w: nat, n: nat)
    ensures BitsOf(w, 8 + n) == OctetBits(w % 0x100) + BitsOf(w / 0x100, n)
  {
    Widths();
    SplitBits(w, 8, n);
    HalveEight(w);
    BitsOfMod(w, 8);
  }

  lemma StreamOfFour(a: u8, b: u8, c: u8, d: u8)
    ensures Stream([a, b, c, d]) == OctetBits(a) + (OctetBits(b) + (OctetBits(c) + OctetBits(d)))
  {
    assert [a, b, c, d][1..] == [b, c, d] && [b, c, d][1..] == [c, d] && [c, d][1..] == [d];
    assert [d][1..] == [];
    assert Stream([d]) == OctetBits(d);
    assert Stream([c, d]) == OctetBits(c) + Stream([d]);
    assert Stream([b, c, d]) == OctetBits(b) + Stream([c, d]);
  }

  lemma OctetsOfWord(w: u32)
    ensures var s := LittleEndian(w);
            && BitsOf(w, 32) == OctetBits(s[0]) + (OctetBits(s[1]) + (OctetBits(s[2]) + OctetBits(s[3])))
  {
    FirstOctet(w, 24);
    FirstOctet(w / 0x100, 16);
    FirstOctet(w / 0x1_0000, 8);
    assert w / 0x100 / 0x100 == w / 0x1_0000 && w / 0x1_0000 / 0x100 == w / 0x100_0000;
  }

  /** Stored little-endian, a word is its bits in stream order. */
  lemma LittleEndianStream(w: u32)
    ensures Stream(LittleEndian(w)) == BitsOf(w, 32)
  {
    var s := LittleEndian(w);
    OctetsOfWord(w);
    StreamOfFour(s[0], s[1], s[2], s[3]);
    assert s == [s[0], s[1], s[2], s[3]];
  }

  /** `n` copies of `b`. */
  function Fill(b: u8, n: nat): (r: seq<u8>)
    ensures |r| == n && forall i :: 0 <= i < n ==> r[i] == b
  {
    seq(n, _ => b)
  }
}
