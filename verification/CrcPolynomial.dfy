/**
 * Both checksums as division of polynomials over the field of two elements, which is how the
 * standards define them, with the generators written out by their exponents.
 */
module CrcPolynomial {
  import opened Words
  import opened Lfsr
  import opened Crc
  import opened CrcValues

  /** A polynomial: the exponents of its terms. */
  type Poly = set<nat>

  function Plus(a: Poly, b: Poly): Poly {
    (a - b) + (b - a)
  }

  /** `a` times the `k`th power of the variable. */
  function Raised(a: Poly, k: nat): (r: Poly)
    ensures forall e :: e in r <==> e >= k && e - k in a
  {
    var r := set d | d in a :: d + k;
    RaisedHolds(a, k, r);
    r
  }

  lemma RaisedHolds(a: Poly, k: nat, r: Poly)
    requires r == set d | d in a :: d + k
    ensures forall e :: e in r <==> e >= k && e - k in a
  {
    forall e: nat
      ensures e in r <==> e >= k && e - k in a
    {
      if e >= k && e - k in a {
        var d := e - k;
        assert d + k == e;
      }
    }
  }

  /** The coefficient at the `e`th power when `b` lists them from the highest on. */
  predicate Coefficient(b: Bits, e: nat) {
    e < |b| && b[|b| - 1 - e]
  }

  function OfBits(b: Bits): (r: Poly)
    ensures forall e :: e in r <==> Coefficient(b, e)
  {
    set e: nat | e < |b| && Coefficient(b, e)
  }

  function Times(q: Bits, g: Poly): Poly {
    if q == [] then {} else Plus(if q[0] then Raised(g, |q| - 1) else {}, Times(q[1..], g))
  }

  predicate Below(a: Poly, n: nat) {
    forall e :: e in a ==> e < n
  }

  /** Dividing `a` by `g` of degree `n` leaves `r`, with a quotient of `m` coefficients. */
  ghost predicate Leaves(a: Poly, g: Poly, n: nat, m: nat, r: Poly) {
    Below(r, n) && exists q :: |q| == m && a == Plus(Times(q, g), r)
  }

  // ---------------------------------------------------------------- the register divides

  /** The generator that a register with the bits `p` stands for. */
  function Generator(p: Bits): Poly {
    Plus({|p|}, OfBits(p))
  }

  lemma StepDivides(p: Bits, c: Bits, bit: bool)
    requires |c| == |p| > 0
    ensures OfBits(Step(p, c, bit)) ==
            Plus(Plus(Raised(OfBits(c), 1), if bit then {|p|} else {}), if c[0] != bit then Generator(p) else {})
  {
    var r := Step(p, c, bit);
    var n, t := |p|, Plus(Plus(Raised(OfBits(c), 1), if bit then {|p|} else {}),
                          if c[0] != bit then Generator(p) else {});
    forall e: nat
      ensures e in OfBits(r) <==> e in t
    {
      if e < n {
        assert r[n - 1 - e] == ((n - e < n && c[n - e]) != ((c[0] != bit) && p[n - 1 - e]));
        assert e >= 1 ==> (e - 1 in OfBits(c) <==> c[n - e]);
      } else if e == n {
        assert e - 1 in OfBits(c) <==> c[0];
      }
    }
  }

  lemma PlusShuffled(a: Poly, b: Poly, c: Poly, d: Poly, e: Poly)
    ensures Plus(Plus(Plus(Plus(a, b), c), d), e) == Plus(Plus(a, Plus(b, d)), Plus(c, e))
  {
  }

  lemma RaisedPlus(a: Poly, b: Poly, k: nat)
    ensures Raised(Plus(a, b), k) == Plus(Raised(a, k), Raised(b, k))
  {
  }

  lemma RaisedTwice(a: Poly, j: nat, k: nat)
    ensures Raised(Raised(a, j), k) == Raised(a, j + k)
  {
  }

  lemma RaisedStep(a: Poly, bit: bool, n: nat, fed: bool, g: Poly, k: nat)
    ensures Raised(Plus(Plus(Raised(a, 1), if bit then {n} else {}), if fed then g else {}), k) ==
            Plus(Plus(Raised(a, k + 1), if bit then {n + k} else {}), if fed then Raised(g, k) else {})
  {
    var x: Poly, y: Poly := if bit then {n} else {}, if fed then g else {};
    RaisedPlus(Plus(Raised(a, 1), x), y, k);
    RaisedPlus(Raised(a, 1), x, k);
    RaisedTwice(a, 1, k);
    assert Raised(x, k) == if bit then {n + k} else {};
    assert Raised(y, k) == if fed then Raised(g, k) else {};
  }

  /** The first coefficient of a polynomial, and the others. */
  lemma OfBitsCons(b: Bits, n: nat)
    requires b != []
    ensures Raised(OfBits(b), n) == Plus(if b[0] then {|b| - 1 + n} else {}, Raised(OfBits(b[1..]), n))
  {
  }

  /** What division leaves to subtract: the dividend so far and the multiple taken from it. */
  ghost predicate Divided(p: Bits, c: Bits, b: Bits, q: Bits)
    requires |c| == |p| > 0
  {
    && |q| == |b|
    && OfBits(Run(p, c, b)) == Plus(Plus(Raised(OfBits(c), |b|), Raised(OfBits(b), |p|)), Times(q, Generator(p)))
  }

  lemma Folded(r: Poly, a: Poly, x: Poly, y: Poly, z: Poly, w: Poly, stepped: Poly, rest: Poly, sum: Poly, product: Poly)
    requires r == Plus(Plus(stepped, z), rest) && stepped == Plus(Plus(a, x), y)
    requires sum == Plus(x, z) && product == Plus(y, rest) && w == Plus(a, sum)
    ensures r == Plus(w, product)
  {
    PlusShuffled(a, x, y, z, rest);
  }

  lemma DividedMore(p: Bits, c: Bits, b: Bits, rest: Bits)
    requires |c| == |p| > 0 && b != [] && Divided(p, Step(p, c, b[0]), b[1..], rest)
    ensures Divided(p, c, b, [c[0] != b[0]] + rest)
  {
    var n, k, fed, g := |p|, |b| - 1, c[0] != b[0], Generator(p);
    assert ([fed] + rest)[1..] == rest;
    StepDivides(p, c, b[0]);
    RaisedStep(OfBits(c), b[0], n, fed, g, k);
    OfBitsCons(b, n);
    var x: Poly, y: Poly := if b[0] then {n + k} else {}, if fed then Raised(g, k) else {};
    var a, z := Raised(OfBits(c), |b|), Raised(OfBits(b[1..]), n);
    Folded(OfBits(Run(p, c, b)), a, x, y, z, Plus(a, Raised(OfBits(b), n)), Plus(Plus(a, x), y), Times(rest, g),
           Raised(OfBits(b), n), Times([fed] + rest, g));
  }

  /** A register that started at `c` and took in `b` has divided: what it holds is the remainder. */
  lemma {:induction false} RunDivides(p: Bits, c: Bits, b: Bits) returns (q: Bits)
    requires |c| == |p| > 0
    ensures Divided(p, c, b, q)
    decreases |b|
  {
    if b == [] {
      q := [];
      assert Raised(OfBits(c), 0) == OfBits(c);
    } else {
      var rest := RunDivides(p, Step(p, c, b[0]), b[1..]);
      DividedMore(p, c, b, rest);
      q := [c[0] != b[0]] + rest;
    }
  }

  // ---------------------------------------------------------------- the remainder is unique

  lemma {:induction false} TimesPlus(q: Bits, r: Bits, g: Poly)
    requires |q| == |r|
    ensures Times(Xor(q, r), g) == Plus(Times(q, g), Times(r, g))
  {
    if q != [] {
      assert Xor(q, r)[1..] == Xor(q[1..], r[1..]);
      TimesPlus(q[1..], r[1..], g);
    }
  }

  /** The degree of a product: it is nothing, or reaches the degree of the generator. */
  lemma {:induction false} TimesDegree(q: Bits, g: Poly, n: nat)
    requires n in g && Below(g, n + 1)
    ensures Below(Times(q, g), n + |q|)
    ensures Below(Times(q, g), n) ==> Times(q, g) == {}
  {
    if q != [] {
      TimesDegree(q[1..], g, n);
      if q[0] {
        assert n + |q| - 1 in Raised(g, |q| - 1);
        assert n + |q| - 1 in Times(q, g);
      } else {
        assert Times(q, g) == Times(q[1..], g);
      }
    }
  }

  lemma SumOfBoth(a: Poly, x: Poly, y: Poly, r: Poly, s: Poly)
    requires a == Plus(x, r) && a == Plus(y, s)
    ensures Plus(x, y) == Plus(r, s)
  {
    forall e: nat
      ensures e in Plus(x, y) <==> e in Plus(r, s)
    {
      assert e in a <==> (e in x) != (e in r);
      assert e in a <==> (e in y) != (e in s);
    }
  }

  lemma LeavesOne(a: Poly, g: Poly, n: nat, m: nat, r: Poly, s: Poly)
    requires n in g && Below(g, n + 1) && Leaves(a, g, n, m, r) && Leaves(a, g, n, m, s)
    ensures r == s
  {
    var q :| |q| == m && a == Plus(Times(q, g), r);
    var t :| |t| == m && a == Plus(Times(t, g), s);
    TimesPlus(q, t, g);
    SumOfBoth(a, Times(q, g), Times(t, g), r, s);
    TimesDegree(Xor(q, t), g, n);
    assert Plus(r, s) == {};
    assert forall e :: e in r <==> e in s;
  }

  // ---------------------------------------------------------------- the two checksums

  /** Within an octet the lowest bit comes first, and the first bit of all is the highest term. */
  predicate MessageBit(s: seq<u8>, e: nat) {
    e < 8 * |s| && BitAt(s[|s| - 1 - e / 8], 7 - e % 8)
  }

  function Message(s: seq<u8>): (r: Poly)
    ensures forall e :: e in r <==> MessageBit(s, e)
  {
    set e: nat | e < 8 * |s| && MessageBit(s, e)
  }

  lemma StreamIsMessage(s: seq<u8>)
    ensures OfBits(Stream(s)) == Message(s)
  {
    forall e: nat
      ensures Coefficient(Stream(s), e) <==> MessageBit(s, e)
    {
      if e < 8 * |s| {
        assert 8 * |s| - 1 - e == 8 * (|s| - 1 - e / 8) + (7 - e % 8);
        StreamAt(s, |s| - 1 - e / 8, 7 - e % 8);
      }
    }
  }

  /** The message with room for `n` more coefficients, its first `n` inverted. */
  function Dividend(s: seq<u8>, n: nat): Poly {
    Plus(Raised(OfBits(Ones(n)), 8 * |s|), Raised(Message(s), n))
  }

  /** The word read as coefficients, the lowest bit being the highest of `n`. */
  function OfWord(w: nat, n: nat): Poly {
    OfBits(BitsOf(w, n))
  }

  lemma OfWordInjective(v: nat, w: nat, n: nat)
    requires v < Pow2(n) && w < Pow2(n) && OfWord(v, n) == OfWord(w, n)
    ensures v == w
  {
    var a, b := BitsOf(v, n), BitsOf(w, n);
    forall i | 0 <= i < n
      ensures a[i] == b[i]
    {
      var e: nat := n - 1 - i;
      assert e in OfWord(v, n) <==> e in OfWord(w, n);
      assert Coefficient(a, e) == a[i] && Coefficient(b, e) == b[i];
    }
    BitsOfInjective(v, w, n);
  }

  /** What a register that started with ones holds is the remainder of the dividend. */
  lemma RegisterLeaves(p: Bits, s: seq<u8>)
    requires Polynomial(p)
    ensures Leaves(Dividend(s, |p|), Generator(p), |p|, 8 * |s|, OfBits(Run(p, Ones(|p|), Stream(s))))
  {
    var r := OfBits(Run(p, Ones(|p|), Stream(s)));
    var q := RunDivides(p, Ones(|p|), Stream(s));
    StreamIsMessage(s);
    var a, t := Dividend(s, |p|), Times(q, Generator(p));
    assert r == Plus(a, t);
    assert a == Plus(t, r);
  }

  lemma LeavesExactly(p: Bits, s: seq<u8>, r: Poly)
    requires Polynomial(p)
    ensures Leaves(Dividend(s, |p|), Generator(p), |p|, 8 * |s|, r) <==> r == OfBits(Run(p, Ones(|p|), Stream(s)))
  {
    RegisterLeaves(p, s);
    if Leaves(Dividend(s, |p|), Generator(p), |p|, 8 * |s|, r) {
      LeavesOne(Dividend(s, |p|), Generator(p), |p|, 8 * |s|, r, OfBits(Run(p, Ones(|p|), Stream(s))));
    }
  }

  /** The generator of CRC-32 (section 8 of RFC 1952), by its exponents. */
  const GENERATOR32: Poly := {32, 26, 23, 22, 16, 12, 11, 10, 8, 7, 5, 4, 2, 1, 0}

  /** The generator of CRC-16/MODBUS, by its exponents. */
  const GENERATOR16: Poly := {16, 15, 2, 0}

  /** The terms of four coefficients, the last of which has exponent `k`. */
  function Terms(x: Nibble, k: nat): Poly {
    (if x.b0 then {k + 3} else {}) + (if x.b1 then {k + 2} else {})
    + (if x.b2 then {k + 1} else {}) + (if x.b3 then {k} else {})
  }

  lemma NibbleTerms(x: Nibble, rest: Bits)
    ensures OfBits(x.List() + rest) == Terms(x, |rest|) + OfBits(rest)
  {
    var k, all := |rest|, x.List() + rest;
    assert Coefficient(all, k + 3) == x.b0 && Coefficient(all, k + 2) == x.b1;
    assert Coefficient(all, k + 1) == x.b2 && Coefficient(all, k) == x.b3;
    forall e: nat
      ensures e in OfBits(all) <==> e in Terms(x, k) + OfBits(rest)
    {
      if e < k {
        assert Coefficient(all, e) == Coefficient(rest, e);
      } else {
        assert Coefficient(all, e) ==> e in {k, k + 1, k + 2, k + 3};
      }
    }
  }

  lemma HalfTerms(h: Half, rest: Bits)
    ensures OfBits(h.List() + rest) ==
            Terms(h.n0, |rest| + 12) + Terms(h.n1, |rest| + 8) + Terms(h.n2, |rest| + 4) + Terms(h.n3, |rest|)
            + OfBits(rest)
  {
    var t3 := h.n3.List() + rest;
    var t2 := h.n2.List() + t3;
    var t1 := h.n1.List() + t2;
    assert h.List() + rest == h.n0.List() + t1;
    NibbleTerms(h.n3, rest);
    NibbleTerms(h.n2, t3);
    NibbleTerms(h.n1, t2);
    NibbleTerms(h.n0, t1);
  }

  /** Sixteen coefficients, the last of which has exponent `k`, have the terms `a`. */
  predicate HasTerms(h: Half, k: nat, a: Poly) {
    Terms(h.n0, k + 12) + Terms(h.n1, k + 8) + Terms(h.n2, k + 4) + Terms(h.n3, k) == a
  }

  lemma LowTerms()
    ensures HasTerms(LOW32, 16, {26, 23, 22, 16})
  {
  }

  lemma HighTerms()
    ensures HasTerms(HIGH32, 0, {12, 11, 10, 8, 7, 5, 4, 2, 1, 0})
  {
  }

  lemma HalfIs(h: Half, rest: Bits, k: nat, a: Poly)
    requires |rest| == k && HasTerms(h, k, a)
    ensures OfBits(h.List() + rest) == a + OfBits(rest)
  {
    HalfTerms(h, rest);
  }

  lemma LastHalfIs(h: Half, a: Poly)
    requires HasTerms(h, 0, a)
    ensures OfBits(h.List()) == a
  {
    HalfIs(h, [], 0, a);
    assert h.List() + [] == h.List() && OfBits([]) == {} && a + {} == a;
  }

  lemma FullTerms(p: Bits, low: Half, high: Half, a: Poly, b: Poly)
    requires p == low.List() + high.List() && HasTerms(low, 16, a) && HasTerms(high, 0, b)
    ensures OfBits(p) == a + b
  {
    LastHalfIs(high, b);
    HalfIs(low, high.List(), 16, a);
  }

  lemma AllTerms(r: Poly)
    requires r == {26, 23, 22, 16} + {12, 11, 10, 8, 7, 5, 4, 2, 1, 0}
    ensures Plus({32}, r) == GENERATOR32
  {
  }

  lemma Generator32()
    ensures Generator(Poly32()) == GENERATOR32
  {
    Polynomials();
    LowTerms();
    HighTerms();
    FullTerms(Poly32(), LOW32, HIGH32, {26, 23, 22, 16}, {12, 11, 10, 8, 7, 5, 4, 2, 1, 0});
    AllTerms(OfBits(Poly32()));
  }

  lemma Generator16()
    ensures Generator(Poly16()) == GENERATOR16
  {
    Polynomials();
    HalfTerms(HALF16, []);
    assert HALF16.List() + [] == HALF16.List();
  }

  lemma ComplementIsRegister(s: seq<u8>)
    ensures BitsOf(0xFFFF_FFFF - Checksum32(s), 32) == Register32(s)
  {
    Widths();
    ComplementBits(Checksum32(s), 32);
    assert Xor(Xor(Register32(s), Ones(32)), Ones(32)) == Register32(s);
  }

  lemma SameComplement(s: seq<u8>, w: u32)
    ensures w == Checksum32(s) <==> OfWord(0xFFFF_FFFF - w, 32) == OfBits(Register32(s))
  {
    ComplementIsRegister(s);
    Widths();
    var v: nat, c: nat := 0xFFFF_FFFF - w, 0xFFFF_FFFF - Checksum32(s);
    if OfWord(v, 32) == OfWord(c, 32) {
      OfWordInjective(v, c, 32);
    }
  }

  /** CRC-32, completely: the one word whose complement is the remainder by the standard's generator. */
  lemma Crc32IsRemainder(s: seq<u8>, w: u32)
    ensures w == Checksum32(s) <==> Leaves(Dividend(s, 32), GENERATOR32, 32, 8 * |s|, OfWord(0xFFFF_FFFF - w, 32))
  {
    Generator32();
    SameComplement(s, w);
    LeavesExactly(Poly32(), s, OfWord(0xFFFF_FFFF - w, 32));
  }

  /** CRC-16/MODBUS, completely: the one word that is the remainder. */
  lemma Crc16IsRemainder(s: seq<u8>, w: u16)
    ensures w == Checksum16(s) <==> Leaves(Dividend(s, 16), GENERATOR16, 16, 8 * |s|, OfWord(w, 16))
  {
    Widths();
    Generator16();
    LeavesExactly(Poly16(), s, OfWord(w, 16));
    if OfWord(w, 16) == OfWord(Checksum16(s), 16) {
      OfWordInjective(w, Checksum16(s), 16);
    }
  }
}
