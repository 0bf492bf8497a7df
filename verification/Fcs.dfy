/**
 crc32 and check_fcs: the table-driven loop computes the polynomial remainder, and no error burst of
 up to 32 bits gets past the check.
 */
module Fcs {
  import opened Octets
  import opened Iteration
  import Crc32
  import opened CrcPolynomial

  // ---- Registers as polynomials

  /** Bit k of r, where low gives bit 0 and half shifts it out. */
  predicate Test<T>(low: T -> bool, half: T -> T, r: T, k: nat)
    decreases k
  {
    if k == 0 then low(r) else Test(low, half, half(r), k - 1)
  }

  lemma {:induction false} TestOfPlus<T(!new)>(low: T -> bool, half: T -> T, plus: (T, T) -> T, x: T, y: T, k: nat)
    requires forall a, b :: low(plus(a, b)) == (low(a) != low(b))
    requires forall a, b :: half(plus(a, b)) == plus(half(a), half(b))
    ensures Test(low, half, plus(x, y), k) == (Test(low, half, x, k) != Test(low, half, y, k))
    decreases k
  {
    if k > 0 {
      TestOfPlus(low, half, plus, half(x), half(y), k - 1);
    }
  }

  predicate Low(r: bv32) { r & 1 == 1 }

  function Half(r: bv32): bv32 { r >> 1 }

  predicate TestBit(r: bv32, k: nat) { Test(Low, Half, r, k) }

  /** Bit 0 of the register is the coefficient of x^31. */
  function Bits(r: bv32): (p: Poly)
    ensures |p| == 32 && forall k :: 0 <= k < 32 ==> p[k] == TestBit(r, k)
  {
    seq(32, k requires 0 <= k < 32 => TestBit(r, k))
  }

  lemma HalvesOfPlus()
    ensures forall a, b :: Low(Crc32.Plus(a, b)) == (Low(a) != Low(b))
    ensures forall a, b :: Half(Crc32.Plus(a, b)) == Crc32.Plus(Half(a), Half(b))
  {
  }

  lemma TestBitOfXor(x: bv32, y: bv32, k: nat)
    ensures TestBit(Crc32.Plus(x, y), k) == (TestBit(x, k) != TestBit(y, k))
  {
    HalvesOfPlus();
    TestOfPlus(Low, Half, Crc32.Plus, x, y, k);
  }

  lemma BitsOfXor(x: bv32, y: bv32)
    ensures Bits(Crc32.Plus(x, y)) == Add(Bits(x), Bits(y))
  {
    forall k | 0 <= k < 32 ensures Bits(Crc32.Plus(x, y))[k] == Add(Bits(x), Bits(y))[k] {
      TestBitOfXor(x, y, k);
    }
  }

  lemma {:induction false} TestAfter<T>(low: T -> bool, half: T -> T, r: T, k: nat, n: nat)
    ensures Test(low, half, r, k + n) == Test(low, half, Iterate(half, r, n), k)
    decreases n
  {
    if n > 0 {
      TestAfter(low, half, half(r), k, n - 1);
    }
  }

  lemma EightHalves(r: bv32)
    ensures Iterate(Half, r, 8) == Octet1(r)
  {
    assert Iterate(Half, r, 8) == Half(Half(Half(Half(Half(Half(Half(Half(r))))))));
  }

  lemma SkipOctet(r: bv32, k: nat)
    ensures TestBit(r, k + 8) == TestBit(r >> 8, k)
  {
    TestAfter(Low, Half, r, k, 8);
    EightHalves(r);
  }

  lemma TestBitPastEnd(x: bv32)
    ensures !TestBit(x, 32)
  {
    SkipOctet(x, 24);
    SkipOctet(x >> 8, 16);
    SkipOctet(x >> 8 >> 8, 8);
    SkipOctet(x >> 8 >> 8 >> 8, 0);
    assert x >> 8 >> 8 >> 8 >> 8 == 0;
  }

  lemma BitsOfShift(x: bv32)
    ensures Bits(x >> 1) == Bits(x)[1..] + [false]
  {
    var l, r := Bits(x >> 1), Bits(x)[1..] + [false];
    forall k | 0 <= k < 32 ensures l[k] == r[k] {
      assert TestBit(x >> 1, k) == TestBit(x, k + 1);
      if k == 31 {
        TestBitPastEnd(x);
      }
    }
  }

  lemma PolynomialOctet0(j: nat)
    requires j < 8
    ensures TestBit(0xedb88320, j) == (31 - j in EXPONENTS)
  {
    assert !TestBit(0xedb88320, 0) && !TestBit(0xedb88320, 1) && !TestBit(0xedb88320, 2) && !TestBit(0xedb88320, 3)
      && !TestBit(0xedb88320, 4) && TestBit(0xedb88320, 5) && !TestBit(0xedb88320, 6) && !TestBit(0xedb88320, 7);
  }

  lemma PolynomialOctet1(j: nat)
    requires j < 8
    ensures TestBit(0xedb883, j) == (23 - j in EXPONENTS)
  {
    assert TestBit(0xedb883, 0) && TestBit(0xedb883, 1) && !TestBit(0xedb883, 2) && !TestBit(0xedb883, 3)
      && !TestBit(0xedb883, 4) && !TestBit(0xedb883, 5) && !TestBit(0xedb883, 6) && TestBit(0xedb883, 7);
  }

  lemma PolynomialOctet2(j: nat)
    requires j < 8
    ensures TestBit(0xedb8, j) == (15 - j in EXPONENTS)
  {
    assert !TestBit(0xedb8, 0) && !TestBit(0xedb8, 1) && !TestBit(0xedb8, 2) && TestBit(0xedb8, 3)
      && TestBit(0xedb8, 4) && TestBit(0xedb8, 5) && !TestBit(0xedb8, 6) && TestBit(0xedb8, 7);
  }

  lemma PolynomialOctet3(j: nat)
    requires j < 8
    ensures TestBit(0xed, j) == (7 - j in EXPONENTS)
  {
    assert TestBit(0xed, 0) && !TestBit(0xed, 1) && TestBit(0xed, 2) && TestBit(0xed, 3)
      && !TestBit(0xed, 4) && TestBit(0xed, 5) && TestBit(0xed, 6) && TestBit(0xed, 7);
  }

  lemma PolynomialBits(k: nat)
    requires k < 32
    ensures TestBit(0xedb88320, k) == (31 - k in EXPONENTS)
  {
    if k < 8 {
      PolynomialOctet0(k);
    } else {
      SkipOctet(0xedb88320, k - 8);
      if k < 16 {
        PolynomialOctet1(k - 8);
      } else {
        SkipOctet(0xedb883, k - 16);
        if k < 24 {
          PolynomialOctet2(k - 16);
        } else {
          SkipOctet(0xedb8, k - 24);
          PolynomialOctet3(k - 24);
        }
      }
    }
  }

  lemma BitsOfPolynomial()
    ensures Bits(Crc32.POLYNOMIAL) == Generator()
  {
    forall k | 0 <= k < 32 ensures Bits(Crc32.POLYNOMIAL)[k] == Generator()[k] {
      PolynomialBits(k);
    }
  }

  lemma BitsOfStep(x: bv32)
    ensures Bits(Crc32.Step(x)) == Step(Bits(x))
  {
    BitsOfShift(x);
    BitsOfPolynomial();
    BitsOfXor(x >> 1, Crc32.POLYNOMIAL);
    assert Bits(x)[0] == TestBit(x, 0);
  }

  lemma {:induction false} BitsOfSteps(x: bv32, n: nat)
    ensures Bits(Crc32.Steps(x, n)) == Steps(Bits(x), n)
    decreases n
  {
    if n > 0 {
      BitsOfStep(x);
      BitsOfSteps(Crc32.Step(x), n - 1);
    }
  }

  // ---- Back to register values

  function Word(p: Poly): bv32 {
    if p == [] then 0 else (if p[0] then 1 else 0) | (Word(p[1..]) << 1)
  }

  lemma JoinHalf(r: bv32)
    ensures (if Low(r) then 1 else 0) | (Half(r) << 1) == r
  {
  }

  lemma IterateFourTimes<T>(half: T -> T, r: T, n: nat)
    ensures Iterate(half, r, 4 * n)
         == Iterate(half, Iterate(half, Iterate(half, Iterate(half, r, n), n), n), n)
  {
    IterateSplit(half, r, n, 3 * n);
    IterateSplit(half, Iterate(half, r, n), n, 2 * n);
    IterateSplit(half, Iterate(half, Iterate(half, r, n), n), n, n);
  }

  lemma AllShiftedOut(r: bv32)
    ensures Iterate(Half, r, 32) == 0
  {
    IterateFourTimes(Half, r, 8);
    EightHalves(r);
    EightHalves(Octet1(r));
    EightHalves(Octet1(Octet1(r)));
    EightHalves(Octet1(Octet1(Octet1(r))));
    FourOctetsGone(r);
  }

  function Octet1(r: bv32): bv32 { r >> 8 }

  lemma FourOctetsGone(r: bv32)
    ensures Octet1(Octet1(Octet1(Octet1(r)))) == 0
  {
  }

  lemma {:induction false} WordOfTail(r: bv32, j: nat)
    requires j <= 32
    ensures Word(Bits(r)[j..]) == Iterate(Half, r, j)
    decreases 32 - j
  {
    if j == 32 {
      AllShiftedOut(r);
    } else {
      var s := Iterate(Half, r, j);
      WordOfTail(r, j + 1);
      IterateNext(Half, r, j);
      TestAfter(Low, Half, r, 0, j);
      assert Bits(r)[j..][1..] == Bits(r)[j + 1..];
      JoinHalf(s);
    }
  }

  lemma WordOfBits(r: bv32)
    ensures Word(Bits(r)) == r
  {
    WordOfTail(r, 0);
    assert Bits(r)[0..] == Bits(r);
  }

  // ---- Octets in the order of transmission

  /** The low-order bit of an octet comes first. */
  function OctetBits(b: bv8): (p: Poly)
    ensures |p| == 8
  {
    Bits(b as bv32)[..8]
  }

  function FrameBits(frame: Octets): (p: Poly)
    ensures |p| == 8 * |frame|
  {
    if frame == [] then [] else OctetBits(frame[0]) + FrameBits(frame[1..])
  }

  lemma {:induction false} TestBitOfZero(k: nat)
    ensures !TestBit(0, k)
  {
    if k > 0 {
      TestBitOfZero(k - 1);
    }
  }

  lemma BitsOfOctet(b: bv8)
    ensures Bits(b as bv32) == OctetBits(b) + Zero(24)
  {
    var p := Bits(b as bv32);
    forall k | 8 <= k < |p| ensures !p[k] {
      SkipOctet(b as bv32, k - 8);
      assert b as bv32 >> 8 == 0;
      TestBitOfZero(k - 8);
    }
  }

  lemma BitsOfEightSteps(crc: bv32, b: bv8)
    ensures Bits(Crc32.EightSteps(Crc32.Plus(crc, b as bv32))) == Absorb(Bits(crc), OctetBits(b))
  {
    BitsOfSteps(Crc32.Plus(crc, b as bv32), |Crc32.OCTET_MASKS|);
    BitsOfXor(crc, b as bv32);
    BitsOfOctet(b);
    AbsorbAtOnce(Bits(crc), OctetBits(b));
  }

  // ---- crc32

  const INITIAL: bv32 := 0xffffffff

  /** The complemented remainder of the frame, with the register preset to ones. */
  function Checksum(frame: Octets): bv32 {
    !Word(Absorb(Bits(INITIAL), FrameBits(frame)))
  }

  method ComputeCrc32(frame: Octets) returns (crc: bv32)
    ensures crc == Checksum(frame)
  {
    crc := 0xffffffff;
    var i := 0;
    assert frame[0..] == frame;
    while i < |frame|
      invariant 0 <= i <= |frame|
      invariant Absorb(Bits(crc), FrameBits(frame[i..])) == Absorb(Bits(INITIAL), FrameBits(frame))
    {
      var next := AdvanceBits(crc, frame[i]);
      AbsorbConcat(Bits(crc), OctetBits(frame[i]), FrameBits(frame[i + 1..]));
      assert frame[i..][0] == frame[i] && frame[i..][1..] == frame[i + 1..];
      crc := next;
      i := i + 1;
    }
    WordOfBits(crc);
    crc := !crc;
  }

  method AdvanceBits(crc: bv32, b: bv8) returns (r: bv32)
    ensures Bits(r) == Absorb(Bits(crc), OctetBits(b))
  {
    r := Crc32.Advance(crc, b);
    BitsOfEightSteps(crc, b);
  }

  // ---- check_fcs

  method CheckFcs(frame: Octets, fcs: Octets) returns (ok: bool)
    requires |fcs| == 4
    ensures ok <==> FcsValid(frame + fcs)
  {
    var crc := ComputeCrc32(frame);
    assert (frame + fcs)[..|frame|] == frame && (frame + fcs)[|frame|..] == fcs;
    ok := Le32(fcs) == crc;
  }

  /** A frame as received, with the frame check sequence in its last four octets. */
  predicate FcsValid(received: Octets)
    requires |received| >= 4
  {
    var n := |received| - 4;
    Le32(received[n..]) == Checksum(received[..n])
  }

  predicate ClearBelow<T>(low: T -> bool, half: T -> T, r: T, n: nat)
    decreases n
  {
    n == 0 || (!low(r) && ClearBelow(low, half, half(r), n - 1))
  }

  lemma {:induction false} TestClear<T>(low: T -> bool, half: T -> T, r: T, n: nat, k: nat)
    requires ClearBelow(low, half, r, n) && k < n
    ensures !Test(low, half, r, k)
    decreases k
  {
    if k > 0 {
      TestClear(low, half, half(r), n - 1, k - 1);
    }
  }

  lemma HighOctetsClear(h: bv32)
    requires h & 0xff == 0
    ensures ClearBelow(Low, Half, h, 8)
  {
    assert ClearBelow(Low, Half, Half(Half(Half(Half(Half(Half(Half(Half(h)))))))), 0);
    assert ClearBelow(Low, Half, Half(Half(Half(Half(Half(Half(h)))))), 2);
    assert ClearBelow(Low, Half, Half(Half(Half(Half(h)))), 4);
    assert ClearBelow(Low, Half, Half(Half(h)), 6);
  }

  lemma TestBitOfLowOctet(w: bv32, k: nat)
    requires k < 8
    ensures TestBit(w, k) == TestBit(w & 0xff, k)
  {
    Crc32.OctetParts(w);
    TestBitOfXor(w & 0xff, w & !0xff, k);
    HighOctetsClear(w & !0xff);
    TestClear(Low, Half, w & !0xff, 8, k);
  }

  lemma BitsByOctet(w: bv32, b: bv8)
    requires b as bv32 == w & 0xff
    ensures Bits(w) == OctetBits(b) + Bits(w >> 8)[..24]
  {
    var l, r := Bits(w), OctetBits(b) + Bits(w >> 8)[..24];
    forall k | 0 <= k < 32 ensures l[k] == r[k] {
      if k < 8 {
        TestBitOfLowOctet(w, k);
      } else {
        SkipOctet(w, k - 8);
      }
    }
  }

  lemma {:induction false} FrameBitsConcat(a: Octets, b: Octets)
    ensures FrameBits(a + b) == FrameBits(a) + FrameBits(b)
  {
    if a == [] {
      assert a + b == b;
    } else {
      assert (a + b)[0] == a[0] && (a + b)[1..] == a[1..] + b;
      FrameBitsConcat(a[1..], b);
    }
  }

  lemma OctetsOfWord(a: Octets) returns (w0: bv32, w1: bv32, w2: bv32, w3: bv32)
    requires |a| == 4
    ensures w0 == Le32(a) && w1 == w0 >> 8 && w2 == w1 >> 8 && w3 == w2 >> 8
    ensures a[0] as bv32 == w0 & 0xff && a[1] as bv32 == w1 & 0xff
    ensures a[2] as bv32 == w2 & 0xff && a[3] as bv32 == w3 & 0xff
  {
    w0 := Le32(a);
    w1 := w0 >> 8;
    w2 := w1 >> 8;
    w3 := w2 >> 8;
  }

  lemma BitsOfOctets(a: Octets, w0: bv32, w1: bv32, w2: bv32, w3: bv32)
    requires |a| == 4 && w1 == w0 >> 8 && w2 == w1 >> 8 && w3 == w2 >> 8
    requires a[0] as bv32 == w0 & 0xff && a[1] as bv32 == w1 & 0xff
    requires a[2] as bv32 == w2 & 0xff && a[3] as bv32 == w3 & 0xff
    ensures FrameBits(a) == Bits(w0)
  {
    BitsByOctet(w0, a[0]);
    BitsByOctet(w1, a[1]);
    BitsByOctet(w2, a[2]);
    BitsByOctet(w3, a[3]);
    FrameBitsOfFour(a);
    JoinOctets(OctetBits(a[0]), OctetBits(a[1]), OctetBits(a[2]), OctetBits(a[3]),
               Bits(w0), Bits(w1), Bits(w2), Bits(w3), Bits(w3 >> 8));
  }

  lemma BitsOfLe32(a: Octets)
    requires |a| == 4
    ensures FrameBits(a) == Bits(Le32(a))
  {
    var w0, w1, w2, w3 := OctetsOfWord(a);
    BitsOfOctets(a, w0, w1, w2, w3);
  }

  lemma JoinOctets(b0: Poly, b1: Poly, b2: Poly, b3: Poly, w0: Poly, w1: Poly, w2: Poly, w3: Poly, w4: Poly)
    requires |b0| == |b1| == |b2| == |b3| == 8 && |w1| == |w2| == |w3| == |w4| == 32
    requires w0 == b0 + w1[..24] && w1 == b1 + w2[..24] && w2 == b2 + w3[..24] && w3 == b3 + w4[..24]
    ensures w0 == b0 + b1 + b2 + b3
  {
    assert w3[..8] == b3;
    assert w2[..16] == b2 + b3;
    assert w1[..24] == b1 + b2 + b3;
  }

  lemma FrameBitsOfOne(a: Octets)
    requires |a| == 1
    ensures FrameBits(a) == OctetBits(a[0])
  {
    assert FrameBits(a[1..]) == [];
  }

  lemma FrameBitsOfTwo(a: Octets)
    requires |a| == 2
    ensures FrameBits(a) == OctetBits(a[0]) + OctetBits(a[1])
  {
    FrameBitsOfOne(a[1..]);
  }

  lemma FrameBitsOfFour(a: Octets)
    requires |a| == 4
    ensures FrameBits(a) == OctetBits(a[0]) + OctetBits(a[1]) + OctetBits(a[2]) + OctetBits(a[3])
  {
    var l, r := a[..2], a[2..];
    assert a == l + r;
    FrameBitsConcat(l, r);
    FrameBitsOfTwo(l);
    FrameBitsOfTwo(r);
    JoinTwo(OctetBits(a[0]) + OctetBits(a[1]), OctetBits(a[2]), OctetBits(a[3]));
  }

  lemma JoinTwo(x: Poly, y: Poly, z: Poly)
    ensures x + (y + z) == x + y + z
  {
  }

  lemma BitsInjective(x: bv32, y: bv32)
    ensures Bits(x) == Bits(y) <==> x == y
  {
    WordOfBits(x);
    WordOfBits(y);
  }

  lemma Complement(c: bv32, r: bv32)
    ensures Crc32.Plus(r, c) == INITIAL <==> c == !r
  {
    if Crc32.Plus(r, c) == INITIAL {
      SumOfOnes(c, r);
    }
  }

  lemma SumOfOnes(c: bv32, r: bv32)
    requires r ^ c == 0xffffffff
    ensures c == !r
  {
  }

  /** Four octets more take the register x to the fixed residue exactly if they are its complement. */
  lemma ResidueAfter(x: bv32, c: bv32)
    ensures Absorb(Bits(x), Bits(c)) == Steps(Bits(INITIAL), |Bits(c)|) <==> c == !x
  {
    Complement(c, x);
    AbsorbAtOnce(Bits(x), Bits(c));
    assert Bits(c) + Zero(0) == Bits(c);
    BitsOfXor(x, c);
    BitsInjective(Crc32.Plus(x, c), INITIAL);
    if Steps(Bits(Crc32.Plus(x, c)), |Bits(c)|) == Steps(Bits(INITIAL), |Bits(c)|) {
      StepsInjective(Bits(Crc32.Plus(x, c)), Bits(INITIAL), |Bits(c)|);
    }
  }

  lemma {:induction false} RegisterExists(c: bv32, frame: Octets) returns (x: bv32)
    ensures Bits(x) == Absorb(Bits(c), FrameBits(frame))
    decreases |frame|
  {
    if frame == [] {
      x := c;
    } else {
      BitsOfEightSteps(c, frame[0]);
      AbsorbConcat(Bits(c), OctetBits(frame[0]), FrameBits(frame[1..]));
      x := RegisterExists(Crc32.EightSteps(Crc32.Plus(c, frame[0] as bv32)), frame[1..]);
    }
  }

  lemma ComplementTwice(x: bv32)
    ensures !!x == x
  {
  }

  /** The transmitted check sequence is the complement of the remainder of long division. */
  lemma ChecksumIsRemainder(frame: Octets)
    ensures Bits(!Checksum(frame)) == Remainder(Dividend(Bits(INITIAL), FrameBits(frame)))
  {
    var x := RegisterExists(INITIAL, frame);
    WordOfBits(x);
    ComplementTwice(x);
    AbsorbIsRemainder(Bits(INITIAL), FrameBits(frame));
  }

  /** A received frame passes exactly if it leaves a fixed register. */
  lemma FcsValidIsFixedResidue(received: Octets)
    requires |received| >= 4
    ensures FcsValid(received) <==> Absorb(Bits(INITIAL), FrameBits(received)) == Steps(Bits(INITIAL), |Bits(INITIAL)|)
  {
    var n := |received| - 4;
    var frame, fcs := received[..n], received[n..];
    assert frame + fcs == received;
    FrameBitsConcat(frame, fcs);
    AbsorbConcat(Bits(INITIAL), FrameBits(frame), FrameBits(fcs));
    BitsOfLe32(fcs);
    var x := RegisterExists(INITIAL, frame);
    WordOfBits(x);
    ResidueAfter(x, Le32(fcs));
  }

  /**
   If two received frames of the same length both pass, and differ only within 32 consecutive bits
   of frame and FCS, then they are equal: no such corruption of a valid frame is accepted.
   */
  lemma FcsDetectsBursts(f: Octets, g: Octets, u: Poly, a: Poly, b: Poly, v: Poly)
    requires |f| >= 4 && |g| >= 4 && FcsValid(f) && FcsValid(g)
    requires FrameBits(f) == u + a + v && FrameBits(g) == u + b + v && |a| == |b| <= 32
    ensures a == b
  {
    FcsValidIsFixedResidue(f);
    FcsValidIsFixedResidue(g);
    BurstChangesRegister(Bits(INITIAL), u, a, b, v);
  }

  lemma OctetOfBits(a: bv8, b: bv8)
    requires OctetBits(a) == OctetBits(b)
    ensures a == b
  {
    BitsOfOctet(a);
    BitsOfOctet(b);
    WordOfBits(a as bv32);
    WordOfBits(b as bv32);
    assert (a as bv32) as bv8 == a && (b as bv32) as bv8 == b;
  }

  lemma {:induction false} FrameBitsInjective(f: Octets, g: Octets)
    requires |f| == |g| && FrameBits(f) == FrameBits(g)
    ensures f == g
  {
    if f != [] {
      assert OctetBits(f[0]) == FrameBits(f)[..8] && FrameBits(f[1..]) == FrameBits(f)[8..];
      assert OctetBits(g[0]) == FrameBits(g)[..8] && FrameBits(g[1..]) == FrameBits(g)[8..];
      OctetOfBits(f[0], g[0]);
      FrameBitsInjective(f[1..], g[1..]);
    }
  }

  /** Corruption confined to four consecutive octets is never accepted. */
  lemma FcsDetectsFourOctets(u: Octets, a: Octets, b: Octets, v: Octets)
    requires |a| == |b| <= 4 && |u + a + v| >= 4
    requires FcsValid(u + a + v) && FcsValid(u + b + v)
    ensures a == b
  {
    FrameBitsConcat(u + a, v);
    FrameBitsConcat(u, a);
    FrameBitsConcat(u + b, v);
    FrameBitsConcat(u, b);
    FcsDetectsBursts(u + a + v, u + b + v, FrameBits(u), FrameBits(a), FrameBits(b), FrameBits(v));
    FrameBitsInjective(a, b);
  }

  // ---- The check value of CRC-32

  /** One octet takes the register from c to r. */
  predicate Takes(c: bv32, b: bv8, r: bv32) {
    Crc32.Steps(c ^ b as bv32, |Crc32.OCTET_MASKS|) == r
  }

  lemma {:induction false} RegisterPath(regs: seq<bv32>, frame: Octets, n: nat)
    requires |regs| == |frame| + 1 && n <= |frame|
    requires forall k :: 0 <= k < |frame| ==> Takes(regs[k], frame[k], regs[k + 1])
    ensures Absorb(Bits(regs[0]), FrameBits(frame[..n])) == Bits(regs[n])
    decreases n
  {
    if n > 0 {
      var b := frame[n - 1];
      RegisterPath(regs, frame, n - 1);
      assert frame[..n] == frame[..n - 1] + [b];
      FrameBitsConcat(frame[..n - 1], [b]);
      FrameBitsOfOne([b]);
      AbsorbConcat(Bits(regs[0]), FrameBits(frame[..n - 1]), OctetBits(b));
      BitsOfEightSteps(regs[n - 1], b);
      assert Takes(regs[n - 1], frame[n - 1], regs[n]);
    }
  }

  const DIGITS: Octets := [0x31, 0x32, 0x33, 0x34, 0x35, 0x36, 0x37, 0x38, 0x39]
  const REGISTERS: seq<bv32> :=
    [0xffffffff, 0x7c231048, 0xb0acbb32, 0x77b79c2d, 0x641c1f5c,
     0x340ac5e3, 0xf68d2c9e, 0xaffc9660, 0x651f2550, 0x340bc6d9]

  lemma Digit1()
    ensures Takes(0xffffffff, 0x31, 0x7c231048)
  {
    assert Crc32.Steps(0xffffffce, 8) == 0x7c231048;
    assert 0xffffffff ^ 0x31 == 0xffffffce as bv32;
  }

  lemma Digit2()
    ensures Takes(0x7c231048, 0x32, 0xb0acbb32)
  {
    assert Crc32.Steps(0x7c23107a, 8) == 0xb0acbb32;
    assert 0x7c231048 ^ 0x32 == 0x7c23107a as bv32;
  }

  lemma Digit3()
    ensures Takes(0xb0acbb32, 0x33, 0x77b79c2d)
  {
    assert Crc32.Steps(0xb0acbb01, 8) == 0x77b79c2d;
    assert 0xb0acbb32 ^ 0x33 == 0xb0acbb01 as bv32;
  }

  lemma Digit4()
    ensures Takes(0x77b79c2d, 0x34, 0x641c1f5c)
  {
    assert Crc32.Steps(0x77b79c19, 8) == 0x641c1f5c;
    assert 0x77b79c2d ^ 0x34 == 0x77b79c19 as bv32;
  }

  lemma Digit5()
    ensures Takes(0x641c1f5c, 0x35, 0x340ac5e3)
  {
    assert Crc32.Steps(0x641c1f69, 8) == 0x340ac5e3;
    assert 0x641c1f5c ^ 0x35 == 0x641c1f69 as bv32;
  }

  lemma Digit6()
    ensures Takes(0x340ac5e3, 0x36, 0xf68d2c9e)
  {
    assert Crc32.Steps(0x340ac5d5, 8) == 0xf68d2c9e;
    assert 0x340ac5e3 ^ 0x36 == 0x340ac5d5 as bv32;
  }

  lemma Digit7()
    ensures Takes(0xf68d2c9e, 0x37, 0xaffc9660)
  {
    assert Crc32.Steps(0xf68d2ca9, 8) == 0xaffc9660;
    assert 0xf68d2c9e ^ 0x37 == 0xf68d2ca9 as bv32;
  }

  lemma Digit8()
    ensures Takes(0xaffc9660, 0x38, 0x651f2550)
  {
    assert Crc32.Steps(0xaffc9658, 8) == 0x651f2550;
    assert 0xaffc9660 ^ 0x38 == 0xaffc9658 as bv32;
  }

  lemma Digit9()
    ensures Takes(0x651f2550, 0x39, 0x340bc6d9)
  {
    assert Crc32.Steps(0x651f2569, 8) == 0x340bc6d9;
    assert 0x651f2550 ^ 0x39 == 0x651f2569 as bv32;
  }

  lemma DigitsTake(k: nat)
    requires k < 9
    ensures Takes(REGISTERS[k], DIGITS[k], REGISTERS[k + 1])
  {
    Digit1();
    Digit2();
    Digit3();
    Digit4();
    Digit5();
    Digit6();
    Digit7();
    Digit8();
    Digit9();
  }

  /** The digits 1 to 9 in ASCII have the checksum that identifies this CRC among others. */
  lemma CheckValue()
    ensures Checksum(DIGITS) == 0xcbf43926
  {
    forall k | 0 <= k < |DIGITS| ensures Takes(REGISTERS[k], DIGITS[k], REGISTERS[k + 1]) {
      DigitsTake(k);
    }
    RegisterPath(REGISTERS, DIGITS, |DIGITS|);
    assert DIGITS[..|DIGITS|] == DIGITS;
    WordOfBits(REGISTERS[9]);
    assert !(REGISTERS[9]) == 0xcbf43926;
  }
}
