/**
 * The algebra shared by both checksums.  CRC-32 (section 8 of RFC 1952) and CRC-16/MODBUS
 * (section 6.2.2 of "MODBUS over Serial Line Specification and Implementation Guide V1.02")
 * are right-shifting linear feedback registers that differ in polynomial and width only.
 * Here a register is the list of its bits, lowest first, and everything about error
 * detection is proved once, for any width and any polynomial whose top bit is set.
 */
module Lfsr {
  import opened Words

  /** A polynomial of degree `|p|` in reflected form: its top bit must be set. */
  ghost predicate Polynomial(p: Bits) {
    |p| > 0 && p[|p| - 1]
  }

  /** The register after consuming one bit: shift right, feed the polynomial back. */
  function Step(p: Bits, c: Bits, bit: bool): (r: Bits)
    requires |c| == |p| > 0
    ensures |r| == |p|
  {
    var feedback := c[0] != bit;
    seq(|p|, i requires 0 <= i < |p| => (i + 1 < |c| && c[i + 1]) != (feedback && p[i]))
  }

  /** The register after consuming `bits`, starting from `c`. */
  function Run(p: Bits, c: Bits, bits: Bits): (r: Bits)
    requires |c| == |p| > 0
    ensures |r| == |p|
    decreases |bits|
  {
    if bits == [] then c else Run(p, Step(p, c, bits[0]), bits[1..])
  }

  // ---------------------------------------------------------------- one step

  lemma StepLinear(p: Bits, c: Bits, d: Bits, a: bool, b: bool)
    requires |c| == |d| == |p| > 0
    ensures Step(p, Xor(c, d), a != b) == Xor(Step(p, c, a), Step(p, d, b))
  {
  }

  /** The step is a bijection of the register because the polynomial's top bit is set. */
  lemma StepInjective(p: Bits, c: Bits, d: Bits, b: bool)
    requires Polynomial(p) && |c| == |d| == |p|
    requires Step(p, c, b) == Step(p, d, b)
    ensures c == d
  {
    var n := |p|;
    var x, y := Step(p, c, b), Step(p, d, b);
    assert x[n - 1] == (c[0] != b) && y[n - 1] == (d[0] != b);
    forall i | 0 <= i < n
      ensures c[i] == d[i]
    {
      if i > 0 {
        assert x[i - 1] == (c[i] != ((c[0] != b) && p[i - 1]));
        assert y[i - 1] == (d[i] != ((d[0] != b) && p[i - 1]));
      }
    }
  }

  /** The register before a step, recovered from the register after it. */
  function Unstep(p: Bits, c: Bits, b: bool): (r: Bits)
    requires Polynomial(p) && |c| == |p|
    ensures |r| == |p|
    ensures Step(p, r, b) == c
  {
    var feedback := c[|p| - 1];
    var r := seq(|p|, i requires 0 <= i < |p| =>
                 if i == 0 then feedback != b else c[i - 1] != (feedback && p[i - 1]));
    assert forall i :: 0 <= i < |p| ==> Step(p, r, b)[i] == c[i];
    r
  }

  // ---------------------------------------------------------------- whole runs

  lemma {:induction false} RunConcat(p: Bits, c: Bits, a: Bits, b: Bits)
    requires |c| == |p| > 0
    ensures Run(p, c, a + b) == Run(p, Run(p, c, a), b)
    decreases |a|
  {
    if a == [] {
      assert a + b == b;
    } else {
      assert (a + b)[1..] == a[1..] + b;
      RunConcat(p, Step(p, c, a[0]), a[1..], b);
    }
  }

  /** The register is linear over whole inputs. */
  lemma {:induction false} RunLinear(p: Bits, c: Bits, d: Bits, a: Bits, b: Bits)
    requires |c| == |d| == |p| > 0 && |a| == |b|
    ensures Run(p, Xor(c, d), Xor(a, b)) == Xor(Run(p, c, a), Run(p, d, b))
    decreases |a|
  {
    if a != [] {
      StepLinear(p, c, d, a[0], b[0]);
      assert Xor(a, b)[1..] == Xor(a[1..], b[1..]);
      RunLinear(p, Step(p, c, a[0]), Step(p, d, b[0]), a[1..], b[1..]);
    }
  }

  /** Distinct registers stay distinct under any common input. */
  lemma {:induction false} RunInjective(p: Bits, c: Bits, d: Bits, bits: Bits)
    requires Polynomial(p) && |c| == |d| == |p|
    requires Run(p, c, bits) == Run(p, d, bits)
    ensures c == d
    decreases |bits|
  {
    if bits != [] {
      RunInjective(p, Step(p, c, bits[0]), Step(p, d, bits[0]), bits[1..]);
      StepInjective(p, c, d, bits[0]);
    }
  }

  /** Every register value is the outcome of any given input, from a suitable start. */
  lemma {:induction false} RunSurjective(p: Bits, target: Bits, bits: Bits) returns (c: Bits)
    requires Polynomial(p) && |target| == |p|
    ensures |c| == |p| && Run(p, c, bits) == target
    decreases |bits|
  {
    if bits == [] {
      c := target;
    } else {
      var d := RunSurjective(p, target, bits[1..]);
      c := Unstep(p, d, bits[0]);
    }
  }

  /** A register consuming its own bits empties itself. */
  lemma {:induction false} ConsumesItself(p: Bits, c: Bits, bits: Bits)
    requires |c| == |p| > 0 && |bits| <= |p|
    requires forall i :: 0 <= i < |p| ==> c[i] == (i < |bits| && bits[i])
    ensures Run(p, c, bits) == Zero(|p|)
    decreases |bits|
  {
    if bits != [] {
      ConsumesItself(p, Step(p, c, bits[0]), bits[1..]);
    }
  }

  /** Conversely, only its own bits empty a register within one width. */
  lemma {:induction false} EmptiedOnlyByItself(p: Bits, c: Bits, bits: Bits)
    requires Polynomial(p) && |c| == |p| && |bits| <= |p|
    requires Run(p, c, bits) == Zero(|p|)
    ensures forall i :: 0 <= i < |p| ==> c[i] == (i < |bits| && bits[i])
    decreases |bits|
  {
    if bits != [] {
      var d := Step(p, c, bits[0]);
      EmptiedOnlyByItself(p, d, bits[1..]);
      assert d[|p| - 1] == (c[0] != bits[0]);
      forall i | 0 <= i < |p|
        ensures c[i] == (i < |bits| && bits[i])
      {
        if i > 0 {
          assert d[i - 1] == c[i];
        }
      }
    }
  }

  // ---------------------------------------------------------------- bursts

  /** Outside the `n` positions from `at` on, `s` and `t` agree. */
  ghost predicate SameOutside<T>(s: seq<T>, t: seq<T>, at: nat, n: nat) {
    |s| == |t| && forall i :: 0 <= i < |s| && !(at <= i < at + n) ==> s[i] == t[i]
  }

  lemma BurstAtFront(p: Bits, c: Bits, a: Bits, b: Bits, rest: Bits)
    requires Polynomial(p) && |c| == |p| && |a| == |b| <= |p|
    requires Run(p, c, a + rest) == Run(p, c, b + rest)
    ensures a == b
  {
    RunConcat(p, c, a, rest);
    RunConcat(p, c, b, rest);
    RunInjective(p, Run(p, c, a), Run(p, c, b), rest);
    RunLinear(p, c, c, a, b);
    assert Xor(c, c) == Zero(|p|) == Xor(Run(p, c, a), Run(p, c, b));
    EmptiedOnlyByItself(p, Zero(|p|), Xor(a, b));
    forall i | 0 <= i < |a|
      ensures a[i] == b[i]
    {
      assert Zero(|p|)[i] == Xor(a, b)[i];
    }
  }

  /** Burst detection: equal registers exclude any change confined to one register width. */
  lemma {:induction false} BurstDetected(p: Bits, c: Bits, s: Bits, t: Bits, at: nat)
    requires Polynomial(p) && |c| == |p|
    requires SameOutside(s, t, at, |p|)
    requires Run(p, c, s) == Run(p, c, t)
    ensures s == t
    decreases |s|
  {
    if s == [] {
    } else if at > 0 {
      BurstDetected(p, Step(p, c, s[0]), s[1..], t[1..], at - 1);
      assert s == [s[0]] + s[1..] && t == [t[0]] + t[1..];
    } else {
      var n := if |s| <= |p| then |s| else |p|;
      assert s == s[..n] + s[n..] && t == t[..n] + s[n..];
      BurstAtFront(p, c, s[..n], t[..n], s[n..]);
    }
  }

  // ---------------------------------------------------------------- octets

  /** All positions where `s` and `t` differ lie within `n` consecutive ones. */
  ghost predicate Confined(s: Bits, t: Bits, n: nat) {
    exists at: nat :: SameOutside(s, t, at, n)
  }

  /** The change from `w` to `v` is not empty and spans at most `n` consecutive bits. */
  ghost predicate Burst(w: seq<u8>, v: seq<u8>, n: nat) {
    |w| == |v| && w != v && Confined(Stream(w), Stream(v), n)
  }

  lemma BurstAtDetected(p: Bits, c: Bits, s: Bits, t: Bits)
    requires Polynomial(p) && |c| == |p|
    requires s != t && Confined(s, t, |p|)
    ensures Run(p, c, s) != Run(p, c, t)
  {
    if Run(p, c, s) == Run(p, c, t) {
      var at: nat :| SameOutside(s, t, at, |p|);
      BurstDetected(p, c, s, t, at);
    }
  }

  lemma StreamsDiffer(w: seq<u8>, v: seq<u8>)
    requires |w| == |v| && w != v
    ensures Stream(w) != Stream(v)
  {
    if Stream(w) == Stream(v) {
      StreamInjective(w, v);
    }
  }

  /** Every burst of at most one register width changes the register. */
  lemma BurstChangesRegister(p: Bits, c: Bits, w: seq<u8>, v: seq<u8>)
    requires Polynomial(p) && |c| == |p| && Burst(w, v, |p|)
    ensures Run(p, c, Stream(w)) != Run(p, c, Stream(v))
  {
    StreamsDiffer(w, v);
    BurstAtDetected(p, c, Stream(w), Stream(v));
  }

  lemma SameOctetSameBits(w: seq<u8>, v: seq<u8>, i: nat)
    requires i < 8 * |w| && |w| == |v| && w[i / 8] == v[i / 8]
    ensures Stream(w)[i] == Stream(v)[i]
  {
    StreamAt(w, i / 8, i % 8);
    StreamAt(v, i / 8, i % 8);
  }

  /** A change confined to `n` adjacent octets is a burst of `width == 8 * n` bits. */
  lemma AdjacentOctetsAreBurst(w: seq<u8>, v: seq<u8>, at: nat, n: nat, width: nat)
    requires SameOutside(w, v, at, n) && w != v && width == 8 * n
    ensures Burst(w, v, width)
  {
    var s, t := Stream(w), Stream(v);
    forall i | 0 <= i < |s| && !(8 * at <= i < 8 * at + 8 * n)
      ensures s[i] == t[i]
    {
      SameOctetSameBits(w, v, i);
    }
    assert SameOutside(s, t, 8 * at, 8 * n);
  }
}
