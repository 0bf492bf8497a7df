/**
 The checksum as polynomial division over GF(2), on coefficient lists with the highest power first.
 G(x) = x^32 + x^26 + x^23 + x^22 + x^16 + x^12 + x^11 + x^10 + x^8 + x^7 + x^5 + x^4 + x^2 + x + 1
 */
module CrcPolynomial {

  type Poly = seq<bool>

  function Add(p: Poly, q: Poly): (r: Poly)
    requires |p| == |q|
    ensures |r| == |p| && forall k :: 0 <= k < |p| ==> r[k] == (p[k] != q[k])
  {
    seq(|p|, k requires 0 <= k < |p| => p[k] != q[k])
  }

  function Zero(n: nat): (r: Poly)
    ensures |r| == n && forall k :: 0 <= k < n ==> !r[k]
  {
    seq(n, _ => false)
  }

  const EXPONENTS: set<nat> := {26, 23, 22, 16, 12, 11, 10, 8, 7, 5, 4, 2, 1, 0}

  /** G(x) without its leading term. */
  function Generator(): (g: Poly)
    ensures |g| == 32 && forall k :: 0 <= k < 32 ==> g[k] == ((31 - k) in EXPONENTS)
  {
    seq(32, k requires 0 <= k < 32 => (31 - k) in EXPONENTS)
  }

  /** Long division: cancel the leading term of d with a multiple of G(x). */
  function DivideStep(d: Poly): (r: Poly)
    requires |d| > 32
    ensures |r| == |d| - 1
  {
    (if d[0] then Add(d[1..33], Generator()) else d[1..33]) + d[33..]
  }

  function Remainder(d: Poly): (r: Poly)
    requires |d| >= 32
    ensures |r| == 32
    decreases |d|
  {
    if |d| == 32 then d else Remainder(DivideStep(d))
  }

  // ---- The shift register

  /** Multiply by x and reduce. */
  function Step(p: Poly): (r: Poly)
    requires |p| == 32
    ensures |r| == 32
  {
    if p[0] then Add(p[1..] + [false], Generator()) else p[1..] + [false]
  }

  function Steps(p: Poly, n: nat): (r: Poly)
    requires |p| == 32
    ensures |r| == 32
    decreases n
  {
    if n == 0 then p else Steps(Step(p), n - 1)
  }

  function Inject(p: Poly, b: bool): (r: Poly)
    requires |p| == 32
    ensures |r| == 32
  {
    p[0 := p[0] != b]
  }

  /** Feed message bits into the register. */
  function Absorb(p: Poly, bits: Poly): (r: Poly)
    requires |p| == 32
    ensures |r| == 32
    decreases |bits|
  {
    if bits == [] then p else Absorb(Step(Inject(p, bits[0])), bits[1..])
  }

  /** The dividend: the message times x^32, with the register added to its leading coefficients. */
  function Dividend(p: Poly, bits: Poly): (d: Poly)
    requires |p| == 32
    ensures |d| == |bits| + 32
  {
    var m := bits + Zero(32);
    Add(p, m[..32]) + m[32..]
  }

  lemma DivideStepIsRegisterStep(p: Poly, bits: Poly)
    requires |p| == 32 && bits != []
    ensures DivideStep(Dividend(p, bits)) == Dividend(Step(Inject(p, bits[0])), bits[1..])
  {
    var m := bits + Zero(32);
    var d := Dividend(p, bits);
    var q := Inject(p, bits[0]);
    var rest := bits[1..] + Zero(32);
    assert rest == m[1..];
    assert d[0] == q[0];
    var l, r := DivideStep(d), Dividend(Step(q), bits[1..]);
    forall k | 0 <= k < |l| ensures l[k] == r[k] {
      if k < 31 {
        assert d[k + 1] == (p[k + 1] != m[k + 1]);
      } else if k == 31 {
        assert d[32] == m[32];
      } else {
        assert l[k] == d[k + 1] == m[k + 1];
      }
    }
  }

  /** The register is the remainder of long division by G(x). */
  lemma {:induction false} AbsorbIsRemainder(p: Poly, bits: Poly)
    requires |p| == 32
    ensures Absorb(p, bits) == Remainder(Dividend(p, bits))
    decreases |bits|
  {
    if bits == [] {
      assert Dividend(p, bits) == p;
    } else {
      DivideStepIsRegisterStep(p, bits);
      AbsorbIsRemainder(Step(Inject(p, bits[0])), bits[1..]);
    }
  }

  // ---- Error bursts

  lemma StepInjective(p: Poly, q: Poly)
    requires |p| == 32 && |q| == 32 && Step(p) == Step(q)
    ensures p == q
  {
    var s, t := Step(p), Step(q);
    assert Generator()[31];
    assert s[31] == p[0] && t[31] == q[0];
    forall k | 0 < k < 32 ensures p[k] == q[k] {
      var g := Generator()[k - 1];
      assert s[k - 1] == (if p[0] then p[k] != g else p[k]);
      assert t[k - 1] == (if q[0] then q[k] != g else q[k]);
    }
  }

  lemma {:induction false} StepsInjective(p: Poly, q: Poly, n: nat)
    requires |p| == 32 && |q| == 32 && Steps(p, n) == Steps(q, n)
    ensures p == q
    decreases n
  {
    if n > 0 {
      StepsInjective(Step(p), Step(q), n - 1);
      StepInjective(p, q);
    }
  }

  lemma StepShiftsLater(q: Poly, t: Poly)
    requires |q| == 32 && |t| == 31
    ensures Step(Add(q, [false] + t)) == Add(Step(q), t + [false])
  {
    var l, r := Step(Add(q, [false] + t)), Add(Step(q), t + [false]);
    forall k | 0 <= k < 32 ensures l[k] == r[k] {
      if k < 31 {
        assert Add(q, [false] + t)[k + 1] == (q[k + 1] != t[k]);
      }
    }
  }

  /** Up to 32 bits are absorbed as one addition. */
  lemma {:induction false} AbsorbAtOnce(p: Poly, bits: Poly)
    requires |p| == 32 && |bits| <= 32
    ensures Absorb(p, bits) == Steps(Add(p, bits + Zero(32 - |bits|)), |bits|)
    decreases |bits|
  {
    if bits == [] {
      assert Add(p, Zero(32)) == p;
      assert bits + Zero(32) == Zero(32);
    } else {
      var q, rest := Inject(p, bits[0]), bits[1..];
      var t := rest + Zero(31 - |rest|);
      AbsorbAtOnce(Step(q), rest);
      StepShiftsLater(q, t);
      assert t + [false] == rest + Zero(32 - |rest|);
      assert Add(q, [false] + t) == Add(p, bits + Zero(32 - |bits|));
    }
  }

  lemma {:induction false} AbsorbConcat(p: Poly, a: Poly, b: Poly)
    requires |p| == 32
    ensures Absorb(p, a + b) == Absorb(Absorb(p, a), b)
    decreases |a|
  {
    if a == [] {
      assert a + b == b;
    } else {
      assert (a + b)[0] == a[0] && (a + b)[1..] == a[1..] + b;
      AbsorbConcat(Step(Inject(p, a[0])), a[1..], b);
    }
  }

  lemma InjectInjective(p: Poly, q: Poly, b: bool)
    requires |p| == 32 && |q| == 32 && Inject(p, b) == Inject(q, b)
    ensures p == q
  {
    var x, y := Inject(p, b), Inject(q, b);
    forall k | 0 <= k < 32 ensures p[k] == q[k] {
      assert x[k] == y[k];
    }
  }

  lemma {:induction false} AbsorbInjective(p: Poly, q: Poly, v: Poly)
    requires |p| == 32 && |q| == 32 && Absorb(p, v) == Absorb(q, v)
    ensures p == q
    decreases |v|
  {
    if v != [] {
      var x, y := Inject(p, v[0]), Inject(q, v[0]);
      AbsorbInjective(Step(x), Step(y), v[1..]);
      StepInjective(x, y);
      InjectInjective(p, q, v[0]);
    }
  }

  lemma ShortMessagesDiffer(r: Poly, a: Poly, b: Poly)
    requires |r| == 32 && |a| == |b| <= 32 && Absorb(r, a) == Absorb(r, b)
    ensures a == b
  {
    AbsorbAtOnce(r, a);
    AbsorbAtOnce(r, b);
    var z := Zero(32 - |a|);
    StepsInjective(Add(r, a + z), Add(r, b + z), |a|);
    forall k | 0 <= k < |a| ensures a[k] == b[k] {
      assert Add(r, a + z)[k] == Add(r, b + z)[k];
    }
  }

  /** Two messages that differ only within 32 consecutive bits never leave the same register. */
  lemma BurstChangesRegister(p: Poly, u: Poly, a: Poly, b: Poly, v: Poly)
    requires |p| == 32 && |a| == |b| <= 32
    requires Absorb(p, u + a + v) == Absorb(p, u + b + v)
    ensures a == b
  {
    AbsorbConcat(p, u + a, v);
    AbsorbConcat(p, u + b, v);
    AbsorbInjective(Absorb(p, u + a), Absorb(p, u + b), v);
    AbsorbConcat(p, u, a);
    AbsorbConcat(p, u, b);
    ShortMessagesDiffer(Absorb(p, u), a, b);
  }
}
