/** The key mixing of TKIP written out, and its test vector in annex H of IEEE Std 802.11-2007. */
module TkipVector {
  import opened Octets
  import opened Word16
  import opened Modular
  import opened TkipMixing
  import TkipSbox

  // ---- One round of phase 1 and the whole of phase 2, statement by statement

  function FiveOf<W>(f0: W -> W, f1: W -> W, f2: W -> W, f3: W -> W, f4: W -> W, plus: (W, W) -> W, t: seq<W>)
    : (u: seq<W>)
    requires |t| == 5
    ensures |u| == 5
  {
    var t0 := plus(t[0], f0(t[4]));
    var t1 := plus(t[1], f1(t0));
    var t2 := plus(t[2], f2(t1));
    var t3 := plus(t[3], f3(t2));
    var t4 := plus(t[4], f4(t3));
    [t0, t1, t2, t3, t4]
  }

  function SixOf<W>(f0: W -> W, f1: W -> W, f2: W -> W, f3: W -> W, f4: W -> W, f5: W -> W, plus: (W, W) -> W,
      t: seq<W>): (u: seq<W>)
    requires |t| == 6
    ensures |u| == 6
  {
    var t0 := plus(t[0], f0(t[5]));
    var t1 := plus(t[1], f1(t0));
    var t2 := plus(t[2], f2(t1));
    var t3 := plus(t[3], f3(t2));
    var t4 := plus(t[4], f4(t3));
    var t5 := plus(t[5], f5(t4));
    [t0, t1, t2, t3, t4, t5]
  }

  function KeyedBy(F: bv16 -> bv16, key: bv16): bv16 -> bv16 {
    (x: bv16) => Keyed(F, key, x)
  }

  function KeyedPlus(F: bv16 -> bv16, key: bv16, n: bv16): bv16 -> bv16 {
    (x: bv16) => Plus(Keyed(F, key, x), n)
  }

  /** A round with its four key words, the first of them used twice, and its number. */
  function RoundWith(S: bv16 -> bv16, k0: bv16, k1: bv16, k2: bv16, k3: bv16, n: bv16, t: Ring): (u: Ring)
    requires |t| == 5
    ensures |u| == 5
  {
    FiveOf(KeyedBy(S, k0), KeyedBy(S, k1), KeyedBy(S, k2), KeyedBy(S, k3), KeyedPlus(S, k0, n), Plus, t)
  }

  function Round(S: bv16 -> bv16, tk: Octets, r: nat, t: Ring): (u: Ring)
    requires |tk| >= 16 && |t| == 5 && r < 8
    ensures |u| == 5
  {
    var j := 2 * (r % 2);
    RoundWith(S, Mk16(tk[1 + j], tk[0 + j]), Mk16(tk[5 + j], tk[4 + j]), Mk16(tk[9 + j], tk[8 + j]),
              Mk16(tk[13 + j], tk[12 + j]), RoundWord(r), t)
  }

  /** The first six statements of phase 2. */
  function MixWords(S: bv16 -> bv16, w0: bv16, w1: bv16, w2: bv16, w3: bv16, w4: bv16, w5: bv16, p: Ring): (q: Ring)
    requires |p| == 6
    ensures |q| == 6
  {
    SixOf(KeyedBy(S, w0), KeyedBy(S, w1), KeyedBy(S, w2), KeyedBy(S, w3), KeyedBy(S, w4), KeyedBy(S, w5), Plus, p)
  }

  function MixWithS(S: bv16 -> bv16, tk: Octets, p: Ring): (q: Ring)
    requires |tk| >= 16 && |p| == 6
    ensures |q| == 6
  {
    MixWords(S, Le16(tk[0..2]), Le16(tk[2..4]), Le16(tk[4..6]), Le16(tk[6..8]), Le16(tk[8..10]), Le16(tk[10..12]), p)
  }

  /** The last six. */
  function RotateWords(w6: bv16, w7: bv16, p: Ring): (q: Ring)
    requires |p| == 6
    ensures |q| == 6
  {
    SixOf(KeyedBy(RotR1, w6), KeyedBy(RotR1, w7), RotR1, RotR1, RotR1, RotR1, Plus, p)
  }

  function MixByRotation(tk: Octets, p: Ring): (q: Ring)
    requires |tk| >= 16 && |p| == 6
    ensures |q| == 6
  {
    RotateWords(Le16(tk[12..14]), Le16(tk[14..16]), p)
  }

  // ---- The same steps over any words and any addition

  function Turn<W>(f: (nat, W) -> W, plus: (W, W) -> W, p: seq<W>, k: nat): (q: seq<W>)
    requires |p| >= 2
    ensures |q| == |p|
  {
    var i := k % |p|;
    p[i := plus(p[i], f(k, p[Before(i, |p|)]))]
  }

  function Turns<W>(f: (nat, W) -> W, plus: (W, W) -> W, p: seq<W>, k: nat): (q: seq<W>)
    requires |p| >= 2
    ensures |q| == |p|
  {
    if k == 0 then p else Turn(f, plus, Turns(f, plus, p, k - 1), k - 1)
  }

  lemma {:induction false} TurnsAre(f: (nat, bv16) -> bv16, p: Ring, k: nat)
    ensures Turns(f, Plus, p, k) == Run(f, p, k)
    decreases k
  {
    if k > 0 {
      TurnsAre(f, p, k - 1);
    }
  }

  /** One step, told by the position that changes and its new word. */
  lemma OneTurn<W>(f: (nat, W) -> W, plus: (W, W) -> W, p: seq<W>, k: nat, q: seq<W>, i: nat, v: W)
    requires |p| >= 2 && Turns(f, plus, p, k) == q && k % |q| == i && v == plus(q[i], f(k, q[Before(i, |q|)]))
    ensures Turns(f, plus, p, k + 1) == q[i := v]
  {
  }

  lemma CountOn(k: nat, n: nat, i: nat)
    requires n > 0 && k % n == 0 && i < n
    ensures (k + i) % n == i
  {
    var q := k / n;
    assert k == n * q;
    UniqueRemainder(k + i, n, q, i);
  }

  /** Step k is made by g. */
  ghost predicate Agrees<W(!new)>(f: (nat, W) -> W, k: nat, g: W -> W) {
    forall x :: f(k, x) == g(x)
  }

  lemma Turn0Of5<W>(f: (nat, W) -> W, plus: (W, W) -> W, p: seq<W>, k: nat, a: W, b: W, c: W, d: W, e: W, v: W)
    requires |p| == 5 && Turns(f, plus, p, k) == [a, b, c, d, e] && k % 5 == 0 && v == plus(a, f(k, e))
    ensures Turns(f, plus, p, k + 1) == [v, b, c, d, e]
  {
    OneTurn(f, plus, p, k, [a, b, c, d, e], 0, v);
    assert [a, b, c, d, e][0 := v] == [v, b, c, d, e];
  }

  lemma Turn1Of5<W>(f: (nat, W) -> W, plus: (W, W) -> W, p: seq<W>, k: nat, a: W, b: W, c: W, d: W, e: W, v: W)
    requires |p| == 5 && Turns(f, plus, p, k) == [a, b, c, d, e] && k % 5 == 1 && v == plus(b, f(k, a))
    ensures Turns(f, plus, p, k + 1) == [a, v, c, d, e]
  {
    OneTurn(f, plus, p, k, [a, b, c, d, e], 1, v);
    assert [a, b, c, d, e][1 := v] == [a, v, c, d, e];
  }

  lemma Turn2Of5<W>(f: (nat, W) -> W, plus: (W, W) -> W, p: seq<W>, k: nat, a: W, b: W, c: W, d: W, e: W, v: W)
    requires |p| == 5 && Turns(f, plus, p, k) == [a, b, c, d, e] && k % 5 == 2 && v == plus(c, f(k, b))
    ensures Turns(f, plus, p, k + 1) == [a, b, v, d, e]
  {
    OneTurn(f, plus, p, k, [a, b, c, d, e], 2, v);
    assert [a, b, c, d, e][2 := v] == [a, b, v, d, e];
  }

  lemma Turn3Of5<W>(f: (nat, W) -> W, plus: (W, W) -> W, p: seq<W>, k: nat, a: W, b: W, c: W, d: W, e: W, v: W)
    requires |p| == 5 && Turns(f, plus, p, k) == [a, b, c, d, e] && k % 5 == 3 && v == plus(d, f(k, c))
    ensures Turns(f, plus, p, k + 1) == [a, b, c, v, e]
  {
    OneTurn(f, plus, p, k, [a, b, c, d, e], 3, v);
    assert [a, b, c, d, e][3 := v] == [a, b, c, v, e];
  }

  lemma Turn4Of5<W>(f: (nat, W) -> W, plus: (W, W) -> W, p: seq<W>, k: nat, a: W, b: W, c: W, d: W, e: W, v: W)
    requires |p| == 5 && Turns(f, plus, p, k) == [a, b, c, d, e] && k % 5 == 4 && v == plus(e, f(k, d))
    ensures Turns(f, plus, p, k + 1) == [a, b, c, d, v]
  {
    OneTurn(f, plus, p, k, [a, b, c, d, e], 4, v);
    assert [a, b, c, d, e][4 := v] == [a, b, c, d, v];
  }

  /** Five steps of a ring of five words. */
  lemma FiveWords<W>(f: (nat, W) -> W, plus: (W, W) -> W, p: seq<W>, k: nat, a: W, b: W, c: W, d: W, e: W,
      t0: W, t1: W, t2: W, t3: W, t4: W)
    requires |p| == 5 && k % 5 == 0 && Turns(f, plus, p, k) == [a, b, c, d, e]
    requires t0 == plus(a, f(k, e))
    requires t1 == plus(b, f(k + 1, t0))
    requires t2 == plus(c, f(k + 2, t1))
    requires t3 == plus(d, f(k + 3, t2))
    requires t4 == plus(e, f(k + 4, t3))
    ensures Turns(f, plus, p, k + 5) == [t0, t1, t2, t3, t4]
  {
    CountOn(k, 5, 1);
    CountOn(k, 5, 2);
    CountOn(k, 5, 3);
    CountOn(k, 5, 4);
    Turn0Of5(f, plus, p, k, a, b, c, d, e, t0);
    Turn1Of5(f, plus, p, k + 1, t0, b, c, d, e, t1);
    Turn2Of5(f, plus, p, k + 2, t0, t1, c, d, e, t2);
    Turn3Of5(f, plus, p, k + 3, t0, t1, t2, d, e, t3);
    Turn4Of5(f, plus, p, k + 4, t0, t1, t2, t3, e, t4);
  }

  lemma FiveTurns<W(!new)>(f: (nat, W) -> W, plus: (W, W) -> W, p: seq<W>, k: nat, t: seq<W>,
      f0: W -> W, f1: W -> W, f2: W -> W, f3: W -> W, f4: W -> W)
    requires |p| == 5 && k % 5 == 0 && Turns(f, plus, p, k) == t
    requires Agrees(f, k, f0) && Agrees(f, k + 1, f1) && Agrees(f, k + 2, f2) && Agrees(f, k + 3, f3)
    requires Agrees(f, k + 4, f4)
    ensures Turns(f, plus, p, k + 5) == FiveOf(f0, f1, f2, f3, f4, plus, t)
  {
    assert t == [t[0], t[1], t[2], t[3], t[4]];
    var t0 := plus(t[0], f0(t[4]));
    var t1 := plus(t[1], f1(t0));
    var t2 := plus(t[2], f2(t1));
    var t3 := plus(t[3], f3(t2));
    var t4 := plus(t[4], f4(t3));
    FiveWords(f, plus, p, k, t[0], t[1], t[2], t[3], t[4], t0, t1, t2, t3, t4);
  }

  lemma Turn0Of6<W>(f: (nat, W) -> W, plus: (W, W) -> W, p: seq<W>, k: nat, a: W, b: W, c: W, d: W, e: W, g: W, v: W)
    requires |p| == 6 && Turns(f, plus, p, k) == [a, b, c, d, e, g] && k % 6 == 0 && v == plus(a, f(k, g))
    ensures Turns(f, plus, p, k + 1) == [v, b, c, d, e, g]
  {
    OneTurn(f, plus, p, k, [a, b, c, d, e, g], 0, v);
    assert [a, b, c, d, e, g][0 := v] == [v, b, c, d, e, g];
  }

  lemma Turn1Of6<W>(f: (nat, W) -> W, plus: (W, W) -> W, p: seq<W>, k: nat, a: W, b: W, c: W, d: W, e: W, g: W, v: W)
    requires |p| == 6 && Turns(f, plus, p, k) == [a, b, c, d, e, g] && k % 6 == 1 && v == plus(b, f(k, a))
    ensures Turns(f, plus, p, k + 1) == [a, v, c, d, e, g]
  {
    OneTurn(f, plus, p, k, [a, b, c, d, e, g], 1, v);
    assert [a, b, c, d, e, g][1 := v] == [a, v, c, d, e, g];
  }

  lemma Turn2Of6<W>(f: (nat, W) -> W, plus: (W, W) -> W, p: seq<W>, k: nat, a: W, b: W, c: W, d: W, e: W, g: W, v: W)
    requires |p| == 6 && Turns(f, plus, p, k) == [a, b, c, d, e, g] && k % 6 == 2 && v == plus(c, f(k, b))
    ensures Turns(f, plus, p, k + 1) == [a, b, v, d, e, g]
  {
    OneTurn(f, plus, p, k, [a, b, c, d, e, g], 2, v);
    assert [a, b, c, d, e, g][2 := v] == [a, b, v, d, e, g];
  }

  lemma Turn3Of6<W>(f: (nat, W) -> W, plus: (W, W) -> W, p: seq<W>, k: nat, a: W, b: W, c: W, d: W, e: W, g: W, v: W)
    requires |p| == 6 && Turns(f, plus, p, k) == [a, b, c, d, e, g] && k % 6 == 3 && v == plus(d, f(k, c))
    ensures Turns(f, plus, p, k + 1) == [a, b, c, v, e, g]
  {
    OneTurn(f, plus, p, k, [a, b, c, d, e, g], 3, v);
    assert [a, b, c, d, e, g][3 := v] == [a, b, c, v, e, g];
  }

  lemma Turn4Of6<W>(f: (nat, W) -> W, plus: (W, W) -> W, p: seq<W>, k: nat, a: W, b: W, c: W, d: W, e: W, g: W, v: W)
    requires |p| == 6 && Turns(f, plus, p, k) == [a, b, c, d, e, g] && k % 6 == 4 && v == plus(e, f(k, d))
    ensures Turns(f, plus, p, k + 1) == [a, b, c, d, v, g]
  {
    OneTurn(f, plus, p, k, [a, b, c, d, e, g], 4, v);
    assert [a, b, c, d, e, g][4 := v] == [a, b, c, d, v, g];
  }

  lemma Turn5Of6<W>(f: (nat, W) -> W, plus: (W, W) -> W, p: seq<W>, k: nat, a: W, b: W, c: W, d: W, e: W, g: W, v: W)
    requires |p| == 6 && Turns(f, plus, p, k) == [a, b, c, d, e, g] && k % 6 == 5 && v == plus(g, f(k, e))
    ensures Turns(f, plus, p, k + 1) == [a, b, c, d, e, v]
  {
    OneTurn(f, plus, p, k, [a, b, c, d, e, g], 5, v);
    assert [a, b, c, d, e, g][5 := v] == [a, b, c, d, e, v];
  }

  /** Six steps of a ring of six words. */
  lemma SixWords<W>(f: (nat, W) -> W, plus: (W, W) -> W, p: seq<W>, k: nat, a: W, b: W, c: W, d: W, e: W, g: W,
      t0: W, t1: W, t2: W, t3: W, t4: W, t5: W)
    requires |p| == 6 && k % 6 == 0 && Turns(f, plus, p, k) == [a, b, c, d, e, g]
    requires t0 == plus(a, f(k, g))
    requires t1 == plus(b, f(k + 1, t0))
    requires t2 == plus(c, f(k + 2, t1))
    requires t3 == plus(d, f(k + 3, t2))
    requires t4 == plus(e, f(k + 4, t3))
    requires t5 == plus(g, f(k + 5, t4))
    ensures Turns(f, plus, p, k + 6) == [t0, t1, t2, t3, t4, t5]
  {
    CountOn(k, 6, 1);
    CountOn(k, 6, 2);
    CountOn(k, 6, 3);
    CountOn(k, 6, 4);
    CountOn(k, 6, 5);
    Turn0Of6(f, plus, p, k, a, b, c, d, e, g, t0);
    Turn1Of6(f, plus, p, k + 1, t0, b, c, d, e, g, t1);
    Turn2Of6(f, plus, p, k + 2, t0, t1, c, d, e, g, t2);
    Turn3Of6(f, plus, p, k + 3, t0, t1, t2, d, e, g, t3);
    Turn4Of6(f, plus, p, k + 4, t0, t1, t2, t3, e, g, t4);
    Turn5Of6(f, plus, p, k + 5, t0, t1, t2, t3, t4, g, t5);
  }

  lemma SixTurns<W(!new)>(f: (nat, W) -> W, plus: (W, W) -> W, p: seq<W>, k: nat, t: seq<W>,
      f0: W -> W, f1: W -> W, f2: W -> W, f3: W -> W, f4: W -> W, f5: W -> W)
    requires |p| == 6 && k % 6 == 0 && Turns(f, plus, p, k) == t
    requires Agrees(f, k, f0) && Agrees(f, k + 1, f1) && Agrees(f, k + 2, f2) && Agrees(f, k + 3, f3)
    requires Agrees(f, k + 4, f4) && Agrees(f, k + 5, f5)
    ensures Turns(f, plus, p, k + 6) == SixOf(f0, f1, f2, f3, f4, f5, plus, t)
  {
    assert t == [t[0], t[1], t[2], t[3], t[4], t[5]];
    var t0 := plus(t[0], f0(t[5]));
    var t1 := plus(t[1], f1(t0));
    var t2 := plus(t[2], f2(t1));
    var t3 := plus(t[3], f3(t2));
    var t4 := plus(t[4], f4(t3));
    var t5 := plus(t[5], f5(t4));
    SixWords(f, plus, p, k, t[0], t[1], t[2], t[3], t[4], t[5], t0, t1, t2, t3, t4, t5);
  }

  // ---- Phase 1

  lemma RoundFeedIs(S: bv16 -> bv16, tk: Octets, r: nat, k: nat, pos: nat, w: bv16)
    requires |tk| >= 16 && pos < 4 && k == 5 * r && w == Phase1Key(tk, r, pos)
    ensures Agrees(Phase1Feeds(S, tk), k + pos, KeyedBy(S, w))
  {
    assert (k + pos) / 5 == r && (k + pos) % 5 == pos;
  }

  lemma LastFeedIs(S: bv16 -> bv16, tk: Octets, r: nat, k: nat, w: bv16, n: bv16)
    requires |tk| >= 16 && k == 5 * r && w == Phase1Key(tk, r, 4) && n == RoundWord(r)
    ensures Agrees(Phase1Feeds(S, tk), k + 4, KeyedPlus(S, w, n))
  {
    assert (k + 4) / 5 == r && (k + 4) % 5 == 4;
  }

  lemma KeyWordAt(tk: Octets, r: nat, pos: nat, i: nat)
    requires |tk| >= 16 && pos < 5 && i == (if pos == 4 then 0 else 4 * pos)
    ensures var j := 2 * (r % 2); Phase1Key(tk, r, pos) == Mk16(tk[i + 1 + j], tk[i + j])
  {
  }

  lemma RoundWords(S: bv16 -> bv16, f: (nat, bv16) -> bv16, plus: (bv16, bv16) -> bv16, p: Ring, k: nat, t: Ring,
      k0: bv16, k1: bv16, k2: bv16, k3: bv16, n: bv16)
    requires |p| == 5 && k % 5 == 0 && Turns(f, plus, p, k) == t
    requires Agrees(f, k, KeyedBy(S, k0)) && Agrees(f, k + 1, KeyedBy(S, k1)) && Agrees(f, k + 2, KeyedBy(S, k2))
    requires Agrees(f, k + 3, KeyedBy(S, k3)) && Agrees(f, k + 4, KeyedPlus(S, k0, n))
    ensures Turns(f, plus, p, k + 5) ==
      FiveOf(KeyedBy(S, k0), KeyedBy(S, k1), KeyedBy(S, k2), KeyedBy(S, k3), KeyedPlus(S, k0, n), plus, t)
  {
    FiveTurns(f, plus, p, k, t, KeyedBy(S, k0), KeyedBy(S, k1), KeyedBy(S, k2), KeyedBy(S, k3), KeyedPlus(S, k0, n));
  }

  lemma RoundFeedsAre(S: bv16 -> bv16, tk: Octets, r: nat, k: nat, k0: bv16, k1: bv16, k2: bv16, k3: bv16, n: bv16)
    requires |tk| >= 16 && k == 5 * r && n == RoundWord(r)
    requires var j := 2 * (r % 2); k0 == Mk16(tk[1 + j], tk[0 + j]) && k1 == Mk16(tk[5 + j], tk[4 + j])
    requires var j := 2 * (r % 2); k2 == Mk16(tk[9 + j], tk[8 + j]) && k3 == Mk16(tk[13 + j], tk[12 + j])
    ensures k % 5 == 0
    ensures Agrees(Phase1Feeds(S, tk), k, KeyedBy(S, k0)) && Agrees(Phase1Feeds(S, tk), k + 1, KeyedBy(S, k1))
    ensures Agrees(Phase1Feeds(S, tk), k + 2, KeyedBy(S, k2)) && Agrees(Phase1Feeds(S, tk), k + 3, KeyedBy(S, k3))
    ensures Agrees(Phase1Feeds(S, tk), k + 4, KeyedPlus(S, k0, n))
  {
    KeyWordAt(tk, r, 0, 0);
    KeyWordAt(tk, r, 1, 4);
    KeyWordAt(tk, r, 2, 8);
    KeyWordAt(tk, r, 3, 12);
    KeyWordAt(tk, r, 4, 0);
    RoundFeedIs(S, tk, r, k, 0, k0);
    RoundFeedIs(S, tk, r, k, 1, k1);
    RoundFeedIs(S, tk, r, k, 2, k2);
    RoundFeedIs(S, tk, r, k, 3, k3);
    LastFeedIs(S, tk, r, k, k0, n);
  }

  lemma RoundIs(S: bv16 -> bv16, tk: Octets, p: Ring, r: nat, k: nat, t: Ring)
    requires |tk| >= 16 && r < 8 && |p| == 5 && k == 5 * r && Turns(Phase1Feeds(S, tk), Plus, p, k) == t
    ensures Turns(Phase1Feeds(S, tk), Plus, p, k + 5) == Round(S, tk, r, t)
  {
    var j := 2 * (r % 2);
    var k0, k1 := Mk16(tk[1 + j], tk[0 + j]), Mk16(tk[5 + j], tk[4 + j]);
    var k2, k3 := Mk16(tk[9 + j], tk[8 + j]), Mk16(tk[13 + j], tk[12 + j]);
    RoundFeedsAre(S, tk, r, k, k0, k1, k2, k3, RoundWord(r));
    RoundWords(S, Phase1Feeds(S, tk), Plus, p, k, t, k0, k1, k2, k3, RoundWord(r));
  }

  /** Round r is the next five steps. */
  ghost predicate IsRound<W>(f: (nat, W) -> W, plus: (W, W) -> W, p: seq<W>, round: (seq<W>, nat) -> seq<W>, r: nat)
    requires |p| >= 2
  {
    Turns(f, plus, p, 5 * r + 5) == round(Turns(f, plus, p, 5 * r), r)
  }

  lemma {:induction false} RoundsAre<W>(f: (nat, W) -> W, plus: (W, W) -> W, p: seq<W>,
      round: (seq<W>, nat) -> seq<W>, n: nat)
    requires |p| >= 2
    requires forall r: nat :: r < n ==> IsRound(f, plus, p, round, r)
    ensures Turns(f, plus, p, 5 * n) == Forth(round, p, n)
    decreases n
  {
    if n > 0 {
      RoundsAre(f, plus, p, round, n - 1);
      assert IsRound(f, plus, p, round, n - 1);
    }
  }

  /** The rounds as a function of the state and the number, for rings of five words. */
  function RoundOf(S: bv16 -> bv16, tk: Octets): (seq<bv16>, nat) -> seq<bv16>
    requires |tk| >= 16
  {
    (t: seq<bv16>, r: nat) => if |t| == 5 && r < 8 then Round(S, tk, r, t) else t
  }

  lemma RoundAt(S: bv16 -> bv16, tk: Octets, p: Ring, r: nat, t: Ring)
    requires |tk| >= 16 && |p| == 5 && r < 8 && t == Turns(Phase1Feeds(S, tk), Plus, p, 5 * r)
    ensures IsRound(Phase1Feeds(S, tk), Plus, p, RoundOf(S, tk), r)
  {
    RoundIs(S, tk, p, r, 5 * r, t);
  }

  /** Phase 1 is eight rounds of five statements on the words of the address and the high counter. */
  lemma Phase1Is(S: bv16 -> bv16, tk: Octets, ta: Octets, iv32: bv32, n: nat)
    requires |tk| >= 16 && |ta| == 6 && n == 8
    ensures Phase1(S, tk, ta, iv32) ==
      Forth(RoundOf(S, tk), [Lo16(iv32), Hi16(iv32), Mk16(ta[1], ta[0]), Mk16(ta[3], ta[2]), Mk16(ta[5], ta[4])], n)
  {
    var p := Phase1Init(ta, iv32);
    forall r: nat | r < n ensures IsRound(Phase1Feeds(S, tk), Plus, p, RoundOf(S, tk), r) {
      RoundAt(S, tk, p, r, Turns(Phase1Feeds(S, tk), Plus, p, 5 * r));
    }
    RoundsAre(Phase1Feeds(S, tk), Plus, p, RoundOf(S, tk), n);
    TurnsAre(Phase1Feeds(S, tk), p, 5 * n);
    assert 8 * |p| == 5 * n;
  }

  // ---- Phase 2

  lemma FeedIsS(S: bv16 -> bv16, tk: Octets, k: nat, w: bv16)
    requires |tk| >= 16 && k < 6 && w == TkWord(tk, k)
    ensures Agrees(Phase2Feeds(S, tk), k, KeyedBy(S, w))
  {
  }

  lemma FeedIsKeyRotation(S: bv16 -> bv16, tk: Octets, k: nat, w: bv16)
    requires |tk| >= 16 && 6 <= k < 8 && w == TkWord(tk, k)
    ensures Agrees(Phase2Feeds(S, tk), k, KeyedBy(RotR1, w))
  {
  }

  lemma FeedIsRotation(S: bv16 -> bv16, tk: Octets, k: nat)
    requires |tk| >= 16 && k >= 8
    ensures Agrees(Phase2Feeds(S, tk), k, RotR1)
  {
  }

  lemma FirstFeedsAre(S: bv16 -> bv16, tk: Octets, k: nat)
    requires |tk| >= 16 && k == 0
    ensures Agrees(Phase2Feeds(S, tk), k, KeyedBy(S, Le16(tk[0..2])))
    ensures Agrees(Phase2Feeds(S, tk), k + 1, KeyedBy(S, Le16(tk[2..4])))
    ensures Agrees(Phase2Feeds(S, tk), k + 2, KeyedBy(S, Le16(tk[4..6])))
    ensures Agrees(Phase2Feeds(S, tk), k + 3, KeyedBy(S, Le16(tk[6..8])))
    ensures Agrees(Phase2Feeds(S, tk), k + 4, KeyedBy(S, Le16(tk[8..10])))
    ensures Agrees(Phase2Feeds(S, tk), k + 5, KeyedBy(S, Le16(tk[10..12])))
  {
    FeedIsS(S, tk, k, Le16(tk[0..2]));
    FeedIsS(S, tk, k + 1, Le16(tk[2..4]));
    FeedIsS(S, tk, k + 2, Le16(tk[4..6]));
    FeedIsS(S, tk, k + 3, Le16(tk[6..8]));
    FeedIsS(S, tk, k + 4, Le16(tk[8..10]));
    FeedIsS(S, tk, k + 5, Le16(tk[10..12]));
  }

  lemma FirstWords(S: bv16 -> bv16, f: (nat, bv16) -> bv16, plus: (bv16, bv16) -> bv16, p: Ring, k: nat,
      w0: bv16, w1: bv16, w2: bv16, w3: bv16, w4: bv16, w5: bv16)
    requires |p| == 6 && k == 0
    requires Agrees(f, k, KeyedBy(S, w0)) && Agrees(f, k + 1, KeyedBy(S, w1)) && Agrees(f, k + 2, KeyedBy(S, w2))
    requires Agrees(f, k + 3, KeyedBy(S, w3)) && Agrees(f, k + 4, KeyedBy(S, w4)) && Agrees(f, k + 5, KeyedBy(S, w5))
    ensures Turns(f, plus, p, k + 6) ==
      SixOf(KeyedBy(S, w0), KeyedBy(S, w1), KeyedBy(S, w2), KeyedBy(S, w3), KeyedBy(S, w4), KeyedBy(S, w5), plus, p)
  {
    SixTurns(f, plus, p, k, p,
             KeyedBy(S, w0), KeyedBy(S, w1), KeyedBy(S, w2), KeyedBy(S, w3), KeyedBy(S, w4), KeyedBy(S, w5));
  }

  lemma FirstSix(S: bv16 -> bv16, tk: Octets, p: Ring, k: nat)
    requires |tk| >= 16 && |p| == 6 && k == 0
    ensures Turns(Phase2Feeds(S, tk), Plus, p, k + 6) == MixWithS(S, tk, p)
  {
    FirstFeedsAre(S, tk, k);
    FirstWords(S, Phase2Feeds(S, tk), Plus, p, k, Le16(tk[0..2]), Le16(tk[2..4]), Le16(tk[4..6]), Le16(tk[6..8]),
               Le16(tk[8..10]), Le16(tk[10..12]));
  }

  lemma LastFeedsAre(S: bv16 -> bv16, tk: Octets, k: nat)
    requires |tk| >= 16 && k == 6
    ensures Agrees(Phase2Feeds(S, tk), k, KeyedBy(RotR1, Le16(tk[12..14])))
    ensures Agrees(Phase2Feeds(S, tk), k + 1, KeyedBy(RotR1, Le16(tk[14..16])))
    ensures Agrees(Phase2Feeds(S, tk), k + 2, RotR1) && Agrees(Phase2Feeds(S, tk), k + 3, RotR1)
    ensures Agrees(Phase2Feeds(S, tk), k + 4, RotR1) && Agrees(Phase2Feeds(S, tk), k + 5, RotR1)
  {
    FeedIsKeyRotation(S, tk, k, Le16(tk[12..14]));
    FeedIsKeyRotation(S, tk, k + 1, Le16(tk[14..16]));
    FeedIsRotation(S, tk, k + 2);
    FeedIsRotation(S, tk, k + 3);
    FeedIsRotation(S, tk, k + 4);
    FeedIsRotation(S, tk, k + 5);
  }

  lemma LastWords(rot: bv16 -> bv16, f: (nat, bv16) -> bv16, plus: (bv16, bv16) -> bv16, p: Ring, k: nat, t: Ring,
      w6: bv16, w7: bv16)
    requires |p| == 6 && k == 6 && Turns(f, plus, p, k) == t
    requires Agrees(f, k, KeyedBy(rot, w6)) && Agrees(f, k + 1, KeyedBy(rot, w7)) && Agrees(f, k + 2, rot)
    requires Agrees(f, k + 3, rot) && Agrees(f, k + 4, rot) && Agrees(f, k + 5, rot)
    ensures Turns(f, plus, p, k + 6) == SixOf(KeyedBy(rot, w6), KeyedBy(rot, w7), rot, rot, rot, rot, plus, t)
  {
    SixTurns(f, plus, p, k, t, KeyedBy(rot, w6), KeyedBy(rot, w7), rot, rot, rot, rot);
  }

  lemma LastSix(S: bv16 -> bv16, tk: Octets, p: Ring, k: nat, t: Ring)
    requires |tk| >= 16 && |p| == 6 && k == 6 && Turns(Phase2Feeds(S, tk), Plus, p, k) == t
    ensures Turns(Phase2Feeds(S, tk), Plus, p, k + 6) == MixByRotation(tk, t)
  {
    LastFeedsAre(S, tk, k);
    LastWords(RotR1, Phase2Feeds(S, tk), Plus, p, k, t, Le16(tk[12..14]), Le16(tk[14..16]));
  }

  lemma TwelveSteps(S: bv16 -> bv16, tk: Octets, p: Ring, n: nat)
    requires |tk| >= 16 && |p| == 6 && n == 6
    ensures Turns(Phase2Feeds(S, tk), Plus, p, n + n) == MixByRotation(tk, MixWithS(S, tk, p))
  {
    FirstSix(S, tk, p, n - 6);
    LastSix(S, tk, p, n, MixWithS(S, tk, p));
  }

  /** Phase 2 is six statements with the S-box and six with rotations, on phase 1 and its last word plus the counter. */
  lemma Phase2Is(S: bv16 -> bv16, tk: Octets, t: Ring, iv16: bv16, n: nat)
    requires |tk| >= 16 && |t| == 5 && n == 6
    ensures Phase2(S, tk, t, iv16) == MixByRotation(tk, MixWithS(S, tk, t + [Plus(iv16, t[4])]))
  {
    var p := Phase2Init(t, iv16);
    TwelveSteps(S, tk, p, n);
    TurnsAre(Phase2Feeds(S, tk), p, n + n);
    assert 2 * |p| == n + n;
  }

  // ---- The test vector

  const TK: Octets :=
    [0x00, 0x01, 0x02, 0x03, 0x04, 0x05, 0x06, 0x07, 0x08, 0x09, 0x0a, 0x0b, 0x0c, 0x0d, 0x0e, 0x0f]
  const TA: Octets := [0x10, 0x22, 0x33, 0x44, 0x55, 0x66]
  const RC4_KEY: Octets :=
    [0x00, 0x20, 0x00, 0x33, 0xea, 0x8d, 0x2f, 0x60, 0xca, 0x6d, 0x13, 0x74, 0x23, 0x4a, 0x66, 0x0b]

  lemma FiveFrom<W>(f0: W -> W, f1: W -> W, f2: W -> W, f3: W -> W, f4: W -> W, plus: (W, W) -> W, t: seq<W>, u: seq<W>)
    requires |t| == 5 && |u| == 5
    requires u[0] == plus(t[0], f0(t[4])) && u[1] == plus(t[1], f1(u[0])) && u[2] == plus(t[2], f2(u[1]))
    requires u[3] == plus(t[3], f3(u[2])) && u[4] == plus(t[4], f4(u[3]))
    ensures FiveOf(f0, f1, f2, f3, f4, plus, t) == u
  {
  }

  lemma SixFrom<W>(f0: W -> W, f1: W -> W, f2: W -> W, f3: W -> W, f4: W -> W, f5: W -> W, plus: (W, W) -> W,
      t: seq<W>, u: seq<W>)
    requires |t| == 6 && |u| == 6
    requires u[0] == plus(t[0], f0(t[5])) && u[1] == plus(t[1], f1(u[0])) && u[2] == plus(t[2], f2(u[1]))
    requires u[3] == plus(t[3], f3(u[2])) && u[4] == plus(t[4], f4(u[3])) && u[5] == plus(t[5], f5(u[4]))
    ensures SixOf(f0, f1, f2, f3, f4, f5, plus, t) == u
  {
  }

  /** The values of the S-box that the vector needs. */
  predicate HasS0(S: bv16 -> bv16) {
    && S(0x6755) == 0x770e && S(0x720a) == 0x0e29 && S(0x0721) == 0xb58d
    && S(0xda91) == 0xe036 && S(0x2569) == 0xa86e
  }

  predicate HasS1(S: bv16 -> bv16) {
    && S(0x0dc1) == 0x923d && S(0x0e4d) == 0x3b73 && S(0x4296) == 0x4ff3
    && S(0x289e) == 0x4a75 && S(0x6ddc) == 0x53e9
  }

  predicate HasS2(S: bv16 -> bv16) {
    && S(0x63ad) == 0x2749 && S(0x3590) == 0x6197 && S(0xa23b) == 0x9149
    && S(0xb5d5) == 0x62b4 && S(0xd092) == 0x0e31
  }

  predicate HasS3(S: bv16 -> bv16) {
    && S(0x73e2) == 0xa1b6 && S(0xd54c) == 0x577d && S(0x09ba) == 0xf005
    && S(0xa7d0) == 0x0428 && S(0xd6b8) == 0xd943
  }

  predicate HasS4(S: bv16 -> bv16) {
    && S(0x4b26) == 0x3b7f && S(0x08cd) == 0x31bc && S(0x3d64) == 0xef8b
    && S(0x9565) == 0xe483 && S(0xbb3d) == 0x6ba6
  }

  predicate HasS5(S: bv16 -> bv16) {
    && S(0xb6d2) == 0xa358 && S(0xb627) == 0x51d3 && S(0x8d35) == 0xd01b
    && S(0x678a) == 0x6893 && S(0x21d2) == 0x6d25
  }

  predicate HasS6(S: bv16 -> bv16) {
    && S(0x23fa) == 0x303b && S(0xe458) == 0x6f6c && S(0xfca3) == 0xdf65
    && S(0x4ae5) == 0xc8c7 && S(0xea97) == 0x9996
  }

  predicate HasS7(S: bv16 -> bv16) {
    && S(0xbf94) == 0x5c76 && S(0x3ad4) == 0x0bc3 && S(0x0a64) == 0x2f0b
    && S(0x79fa) == 0x9b00 && S(0x8595) == 0xf64b
  }

  lemma VectorS0()
    ensures HasS0(TkipSbox.S)
  {
  }

  lemma VectorRound0(S: bv16 -> bv16)
    requires HasS0(S)
    ensures RoundWith(S, 0x0100, 0x0504, 0x0908, 0x0d0c, 0, [0x0000, 0x0000, 0x2210, 0x4433, 0x6655]) ==
      [0x770e, 0x0e29, 0xd79d, 0x2469, 0x0ec3]
  {
    FiveFrom(KeyedBy(S, 0x0100), KeyedBy(S, 0x0504), KeyedBy(S, 0x0908),
             KeyedBy(S, 0x0d0c), KeyedPlus(S, 0x0100, 0), Plus,
             [0x0000, 0x0000, 0x2210, 0x4433, 0x6655], [0x770e, 0x0e29, 0xd79d, 0x2469, 0x0ec3]);
  }

  lemma VectorS1()
    ensures HasS1(TkipSbox.S)
  {
  }

  lemma VectorRound1(S: bv16 -> bv16)
    requires HasS1(S)
    ensures RoundWith(S, 0x0302, 0x0706, 0x0b0a, 0x0f0e, 1, [0x770e, 0x0e29, 0xd79d, 0x2469, 0x0ec3]) ==
      [0x094b, 0x499c, 0x2790, 0x6ede, 0x62ad]
  {
    FiveFrom(KeyedBy(S, 0x0302), KeyedBy(S, 0x0706), KeyedBy(S, 0x0b0a),
             KeyedBy(S, 0x0f0e), KeyedPlus(S, 0x0302, 1), Plus,
             [0x770e, 0x0e29, 0xd79d, 0x2469, 0x0ec3], [0x094b, 0x499c, 0x2790, 0x6ede, 0x62ad]);
  }

  lemma VectorS2()
    ensures HasS2(TkipSbox.S)
  {
  }

  lemma VectorRound2(S: bv16 -> bv16)
    requires HasS2(S)
    ensures RoundWith(S, 0x0100, 0x0504, 0x0908, 0x0d0c, 2, [0x094b, 0x499c, 0x2790, 0x6ede, 0x62ad]) ==
      [0x3094, 0xab33, 0xb8d9, 0xd192, 0x70e0]
  {
    FiveFrom(KeyedBy(S, 0x0100), KeyedBy(S, 0x0504), KeyedBy(S, 0x0908),
             KeyedBy(S, 0x0d0c), KeyedPlus(S, 0x0100, 2), Plus,
             [0x094b, 0x499c, 0x2790, 0x6ede, 0x62ad], [0x3094, 0xab33, 0xb8d9, 0xd192, 0x70e0]);
  }

  lemma VectorS3()
    ensures HasS3(TkipSbox.S)
  {
  }

  lemma VectorRound3(S: bv16 -> bv16)
    requires HasS3(S)
    ensures RoundWith(S, 0x0302, 0x0706, 0x0b0a, 0x0f0e, 3, [0x3094, 0xab33, 0xb8d9, 0xd192, 0x70e0]) ==
      [0xd24a, 0x02b0, 0xa8de, 0xd5ba, 0x4a26]
  {
    FiveFrom(KeyedBy(S, 0x0302), KeyedBy(S, 0x0706), KeyedBy(S, 0x0b0a),
             KeyedBy(S, 0x0f0e), KeyedPlus(S, 0x0302, 3), Plus,
             [0x3094, 0xab33, 0xb8d9, 0xd192, 0x70e0], [0xd24a, 0x02b0, 0xa8de, 0xd5ba, 0x4a26]);
  }

  lemma VectorS4()
    ensures HasS4(TkipSbox.S)
  {
  }

  lemma VectorRound4(S: bv16 -> bv16)
    requires HasS4(S)
    ensures RoundWith(S, 0x0100, 0x0504, 0x0908, 0x0d0c, 4, [0xd24a, 0x02b0, 0xa8de, 0xd5ba, 0x4a26]) ==
      [0x0dc9, 0x346c, 0x9869, 0xba3d, 0xb5d0]
  {
    FiveFrom(KeyedBy(S, 0x0100), KeyedBy(S, 0x0504), KeyedBy(S, 0x0908),
             KeyedBy(S, 0x0d0c), KeyedPlus(S, 0x0100, 4), Plus,
             [0xd24a, 0x02b0, 0xa8de, 0xd5ba, 0x4a26], [0x0dc9, 0x346c, 0x9869, 0xba3d, 0xb5d0]);
  }

  lemma VectorS5()
    ensures HasS5(TkipSbox.S)
  {
  }

  lemma VectorRound5(S: bv16 -> bv16)
    requires HasS5(S)
    ensures RoundWith(S, 0x0302, 0x0706, 0x0b0a, 0x0f0e, 5, [0x0dc9, 0x346c, 0x9869, 0xba3d, 0xb5d0]) ==
      [0xb121, 0x863f, 0x6884, 0x22d0, 0x22fa]
  {
    FiveFrom(KeyedBy(S, 0x0302), KeyedBy(S, 0x0706), KeyedBy(S, 0x0b0a),
             KeyedBy(S, 0x0f0e), KeyedPlus(S, 0x0302, 5), Plus,
             [0x0dc9, 0x346c, 0x9869, 0xba3d, 0xb5d0], [0xb121, 0x863f, 0x6884, 0x22d0, 0x22fa]);
  }

  lemma VectorS6()
    ensures HasS6(TkipSbox.S)
  {
  }

  lemma VectorRound6(S: bv16 -> bv16)
    requires HasS6(S)
    ensures RoundWith(S, 0x0100, 0x0504, 0x0908, 0x0d0c, 6, [0xb121, 0x863f, 0x6884, 0x22d0, 0x22fa]) ==
      [0xe15c, 0xf5ab, 0x47e9, 0xeb97, 0xbc96]
  {
    FiveFrom(KeyedBy(S, 0x0100), KeyedBy(S, 0x0504), KeyedBy(S, 0x0908),
             KeyedBy(S, 0x0d0c), KeyedPlus(S, 0x0100, 6), Plus,
             [0xb121, 0x863f, 0x6884, 0x22d0, 0x22fa], [0xe15c, 0xf5ab, 0x47e9, 0xeb97, 0xbc96]);
  }

  lemma VectorS7()
    ensures HasS7(TkipSbox.S)
  {
  }

  lemma VectorRound7(S: bv16 -> bv16)
    requires HasS7(S)
    ensures RoundWith(S, 0x0302, 0x0706, 0x0b0a, 0x0f0e, 7, [0xe15c, 0xf5ab, 0x47e9, 0xeb97, 0xbc96]) ==
      [0x3dd2, 0x016e, 0x76f4, 0x8697, 0xb2e8]
  {
    FiveFrom(KeyedBy(S, 0x0302), KeyedBy(S, 0x0706), KeyedBy(S, 0x0b0a),
             KeyedBy(S, 0x0f0e), KeyedPlus(S, 0x0302, 7), Plus,
             [0xe15c, 0xf5ab, 0x47e9, 0xeb97, 0xbc96], [0x3dd2, 0x016e, 0x76f4, 0x8697, 0xb2e8]);
  }

  lemma EvenRound(S: bv16 -> bv16, r: nat, t: Ring, n: bv16)
    requires |t| == 5 && r < 8 && r % 2 == 0 && n == RoundWord(r)
    ensures RoundOf(S, TK)(t, r) == RoundWith(S, 0x0100, 0x0504, 0x0908, 0x0d0c, n, t)
  {
    assert Mk16(TK[1], TK[0]) == 0x0100 && Mk16(TK[5], TK[4]) == 0x0504;
    assert Mk16(TK[9], TK[8]) == 0x0908 && Mk16(TK[13], TK[12]) == 0x0d0c;
  }

  lemma OddRound(S: bv16 -> bv16, r: nat, t: Ring, n: bv16)
    requires |t| == 5 && r < 8 && r % 2 == 1 && n == RoundWord(r)
    ensures RoundOf(S, TK)(t, r) == RoundWith(S, 0x0302, 0x0706, 0x0b0a, 0x0f0e, n, t)
  {
    assert Mk16(TK[3], TK[2]) == 0x0302 && Mk16(TK[7], TK[6]) == 0x0706;
    assert Mk16(TK[11], TK[10]) == 0x0b0a && Mk16(TK[15], TK[14]) == 0x0f0e;
  }

  lemma RoundNumbers()
    ensures RoundWord(0) == 0 && RoundWord(1) == 1 && RoundWord(2) == 2 && RoundWord(3) == 3
    ensures RoundWord(4) == 4 && RoundWord(5) == 5 && RoundWord(6) == 6 && RoundWord(7) == 7
  {
  }

  predicate Steps<T(==)>(round: (T, nat) -> T, r: nat, t: T, u: T) {
    round(t, r) == u
  }

  lemma VectorStep0(S: bv16 -> bv16)
    requires HasS0(S)
    ensures Steps(RoundOf(S, TK), 0, [0x0000, 0x0000, 0x2210, 0x4433, 0x6655], [0x770e, 0x0e29, 0xd79d, 0x2469, 0x0ec3])
  {
    RoundNumbers();
    EvenRound(S, 0, [0x0000, 0x0000, 0x2210, 0x4433, 0x6655], 0);
    VectorRound0(S);
  }

  lemma VectorStep1(S: bv16 -> bv16)
    requires HasS1(S)
    ensures Steps(RoundOf(S, TK), 1, [0x770e, 0x0e29, 0xd79d, 0x2469, 0x0ec3], [0x094b, 0x499c, 0x2790, 0x6ede, 0x62ad])
  {
    RoundNumbers();
    OddRound(S, 1, [0x770e, 0x0e29, 0xd79d, 0x2469, 0x0ec3], 1);
    VectorRound1(S);
  }

  lemma VectorStep2(S: bv16 -> bv16)
    requires HasS2(S)
    ensures Steps(RoundOf(S, TK), 2, [0x094b, 0x499c, 0x2790, 0x6ede, 0x62ad], [0x3094, 0xab33, 0xb8d9, 0xd192, 0x70e0])
  {
    RoundNumbers();
    EvenRound(S, 2, [0x094b, 0x499c, 0x2790, 0x6ede, 0x62ad], 2);
    VectorRound2(S);
  }

  lemma VectorStep3(S: bv16 -> bv16)
    requires HasS3(S)
    ensures Steps(RoundOf(S, TK), 3, [0x3094, 0xab33, 0xb8d9, 0xd192, 0x70e0], [0xd24a, 0x02b0, 0xa8de, 0xd5ba, 0x4a26])
  {
    RoundNumbers();
    OddRound(S, 3, [0x3094, 0xab33, 0xb8d9, 0xd192, 0x70e0], 3);
    VectorRound3(S);
  }

  lemma VectorStep4(S: bv16 -> bv16)
    requires HasS4(S)
    ensures Steps(RoundOf(S, TK), 4, [0xd24a, 0x02b0, 0xa8de, 0xd5ba, 0x4a26], [0x0dc9, 0x346c, 0x9869, 0xba3d, 0xb5d0])
  {
    RoundNumbers();
    EvenRound(S, 4, [0xd24a, 0x02b0, 0xa8de, 0xd5ba, 0x4a26], 4);
    VectorRound4(S);
  }

  lemma VectorStep5(S: bv16 -> bv16)
    requires HasS5(S)
    ensures Steps(RoundOf(S, TK), 5, [0x0dc9, 0x346c, 0x9869, 0xba3d, 0xb5d0], [0xb121, 0x863f, 0x6884, 0x22d0, 0x22fa])
  {
    RoundNumbers();
    OddRound(S, 5, [0x0dc9, 0x346c, 0x9869, 0xba3d, 0xb5d0], 5);
    VectorRound5(S);
  }

  lemma VectorStep6(S: bv16 -> bv16)
    requires HasS6(S)
    ensures Steps(RoundOf(S, TK), 6, [0xb121, 0x863f, 0x6884, 0x22d0, 0x22fa], [0xe15c, 0xf5ab, 0x47e9, 0xeb97, 0xbc96])
  {
    RoundNumbers();
    EvenRound(S, 6, [0xb121, 0x863f, 0x6884, 0x22d0, 0x22fa], 6);
    VectorRound6(S);
  }

  lemma VectorStep7(S: bv16 -> bv16)
    requires HasS7(S)
    ensures Steps(RoundOf(S, TK), 7, [0xe15c, 0xf5ab, 0x47e9, 0xeb97, 0xbc96], [0x3dd2, 0x016e, 0x76f4, 0x8697, 0xb2e8])
  {
    RoundNumbers();
    OddRound(S, 7, [0xe15c, 0xf5ab, 0x47e9, 0xeb97, 0xbc96], 7);
    VectorRound7(S);
  }

  lemma EightOf<T>(round: (T, nat) -> T, t0: T, t1: T, t2: T, t3: T, t4: T, t5: T, t6: T, t7: T, t8: T, n: nat)
    requires n == 8 && Steps(round, 0, t0, t1) && Steps(round, 1, t1, t2) && Steps(round, 2, t2, t3)
    requires Steps(round, 3, t3, t4) && Steps(round, 4, t4, t5) && Steps(round, 5, t5, t6)
    requires Steps(round, 6, t6, t7) && Steps(round, 7, t7, t8)
    ensures Forth(round, t0, n) == t8
  {
    assert Forth(round, t0, n - 7) == t1;
    assert Forth(round, t0, n - 6) == t2;
    assert Forth(round, t0, n - 5) == t3;
    assert Forth(round, t0, n - 4) == t4;
    assert Forth(round, t0, n - 3) == t5;
    assert Forth(round, t0, n - 2) == t6;
    assert Forth(round, t0, n - 1) == t7;
  }

  lemma VectorRounds(round: (seq<bv16>, nat) -> seq<bv16>, n: nat)
    requires n == 8
    requires Steps(round, 0, [0x0000, 0x0000, 0x2210, 0x4433, 0x6655], [0x770e, 0x0e29, 0xd79d, 0x2469, 0x0ec3])
    requires Steps(round, 1, [0x770e, 0x0e29, 0xd79d, 0x2469, 0x0ec3], [0x094b, 0x499c, 0x2790, 0x6ede, 0x62ad])
    requires Steps(round, 2, [0x094b, 0x499c, 0x2790, 0x6ede, 0x62ad], [0x3094, 0xab33, 0xb8d9, 0xd192, 0x70e0])
    requires Steps(round, 3, [0x3094, 0xab33, 0xb8d9, 0xd192, 0x70e0], [0xd24a, 0x02b0, 0xa8de, 0xd5ba, 0x4a26])
    requires Steps(round, 4, [0xd24a, 0x02b0, 0xa8de, 0xd5ba, 0x4a26], [0x0dc9, 0x346c, 0x9869, 0xba3d, 0xb5d0])
    requires Steps(round, 5, [0x0dc9, 0x346c, 0x9869, 0xba3d, 0xb5d0], [0xb121, 0x863f, 0x6884, 0x22d0, 0x22fa])
    requires Steps(round, 6, [0xb121, 0x863f, 0x6884, 0x22d0, 0x22fa], [0xe15c, 0xf5ab, 0x47e9, 0xeb97, 0xbc96])
    requires Steps(round, 7, [0xe15c, 0xf5ab, 0x47e9, 0xeb97, 0xbc96], [0x3dd2, 0x016e, 0x76f4, 0x8697, 0xb2e8])
    ensures Forth(round, [0x0000, 0x0000, 0x2210, 0x4433, 0x6655], n) == [0x3dd2, 0x016e, 0x76f4, 0x8697, 0xb2e8]
  {
    EightOf(round, [0x0000, 0x0000, 0x2210, 0x4433, 0x6655],
            [0x770e, 0x0e29, 0xd79d, 0x2469, 0x0ec3],
            [0x094b, 0x499c, 0x2790, 0x6ede, 0x62ad],
            [0x3094, 0xab33, 0xb8d9, 0xd192, 0x70e0],
            [0xd24a, 0x02b0, 0xa8de, 0xd5ba, 0x4a26],
            [0x0dc9, 0x346c, 0x9869, 0xba3d, 0xb5d0],
            [0xb121, 0x863f, 0x6884, 0x22d0, 0x22fa],
            [0xe15c, 0xf5ab, 0x47e9, 0xeb97, 0xbc96],
            [0x3dd2, 0x016e, 0x76f4, 0x8697, 0xb2e8], n);
  }

  lemma VectorSteps(S: bv16 -> bv16, n: nat)
    requires n == 8 && HasS0(S) && HasS1(S) && HasS2(S) && HasS3(S) && HasS4(S) && HasS5(S) && HasS6(S) && HasS7(S)
    ensures Forth(RoundOf(S, TK), [0x0000, 0x0000, 0x2210, 0x4433, 0x6655], n) ==
      [0x3dd2, 0x016e, 0x76f4, 0x8697, 0xb2e8]
  {
    VectorStep0(S);
    VectorStep1(S);
    VectorStep2(S);
    VectorStep3(S);
    VectorStep4(S);
    VectorStep5(S);
    VectorStep6(S);
    VectorStep7(S);
    VectorRounds(RoundOf(S, TK), n);
  }

  lemma VectorPhase1(n: nat)
    requires n == 8
    ensures Phase1(TkipSbox.S, TK, TA, 0) == [0x3dd2, 0x016e, 0x76f4, 0x8697, 0xb2e8]
  {
    Phase1Is(TkipSbox.S, TK, TA, 0, n);
    assert Lo16(0) == 0 && Hi16(0) == 0;
    assert Mk16(TA[1], TA[0]) == 0x2210 && Mk16(TA[3], TA[2]) == 0x4433 && Mk16(TA[5], TA[4]) == 0x6655;
    VectorS0();
    VectorS1();
    VectorS2();
    VectorS3();
    VectorS4();
    VectorS5();
    VectorS6();
    VectorS7();
    VectorSteps(TkipSbox.S, n);
  }

  predicate HasS8(S: bv16 -> bv16) {
    && S(0xb3e8) == 0x9a6c && S(0xdb3c) == 0x1d4f && S(0x1bb9) == 0x46bf
    && S(0xbab5) == 0xb697 && S(0x3426) == 0xdd32 && S(0x9b10) == 0xb36d
  }

  lemma VectorS8()
    ensures HasS8(TkipSbox.S)
  {
  }

  lemma VectorMixWords(S: bv16 -> bv16)
    requires HasS8(S)
    ensures MixWords(S, 0x0100, 0x0302, 0x0504, 0x0706, 0x0908, 0x0b0a,
      [0x3dd2, 0x016e, 0x76f4, 0x8697, 0xb2e8, 0xb2e8]) ==
      [0xd83e, 0x1ebd, 0xbdb3, 0x3d2e, 0x901a, 0x6655]
  {
    SixFrom(KeyedBy(S, 0x0100), KeyedBy(S, 0x0302), KeyedBy(S, 0x0504), KeyedBy(S, 0x0706),
            KeyedBy(S, 0x0908), KeyedBy(S, 0x0b0a), Plus,
            [0x3dd2, 0x016e, 0x76f4, 0x8697, 0xb2e8, 0xb2e8], [0xd83e, 0x1ebd, 0xbdb3, 0x3d2e, 0x901a, 0x6655]);
  }

  lemma VectorRotateWords()
    ensures RotateWords(0x0d0c, 0x0f0e, [0xd83e, 0x1ebd, 0xbdb3, 0x3d2e, 0x901a, 0x6655]) ==
      [0x8dea, 0x602f, 0x6dca, 0x7413, 0x4a23, 0x0b66]
  {
    SixFrom(KeyedBy(RotR1, 0x0d0c), KeyedBy(RotR1, 0x0f0e), RotR1, RotR1, RotR1, RotR1, Plus,
            [0xd83e, 0x1ebd, 0xbdb3, 0x3d2e, 0x901a, 0x6655], [0x8dea, 0x602f, 0x6dca, 0x7413, 0x4a23, 0x0b66]);
  }

  lemma VectorKeyWords()
    ensures Le16(TK[0..2]) == 0x0100 && Le16(TK[2..4]) == 0x0302 && Le16(TK[4..6]) == 0x0504 && Le16(TK[6..8]) == 0x0706
    ensures Le16(TK[8..10]) == 0x0908 && Le16(TK[10..12]) == 0x0b0a
    ensures Le16(TK[12..14]) == 0x0d0c && Le16(TK[14..16]) == 0x0f0e
  {
    assert TK[0..2] == [0x00, 0x01] && TK[2..4] == [0x02, 0x03] && TK[4..6] == [0x04, 0x05] && TK[6..8] == [0x06, 0x07];
    assert TK[8..10] == [0x08, 0x09] && TK[10..12] == [0x0a, 0x0b];
    assert TK[12..14] == [0x0c, 0x0d] && TK[14..16] == [0x0e, 0x0f];
  }

  lemma WordOut(a: bv16, w: seq<bv16>)
    ensures PutWords([a] + w) == PutLe16(a) + PutWords(w)
  {
    assert ([a] + w)[1..] == w;
  }

  lemma SixWordsOut(a: bv16, b: bv16, c: bv16, d: bv16, e: bv16, f: bv16)
    ensures PutWords([a, b, c, d, e, f]) ==
      PutLe16(a) + (PutLe16(b) + (PutLe16(c) + (PutLe16(d) + (PutLe16(e) + (PutLe16(f) + [])))))
  {
    WordOut(f, []);
    assert [f] + [] == [f];
    WordOut(e, [f]);
    assert [e] + [f] == [e, f];
    WordOut(d, [e, f]);
    assert [d] + [e, f] == [d, e, f];
    WordOut(c, [d, e, f]);
    assert [c] + [d, e, f] == [c, d, e, f];
    WordOut(b, [c, d, e, f]);
    assert [b] + [c, d, e, f] == [b, c, d, e, f];
    WordOut(a, [b, c, d, e, f]);
    assert [a] + [b, c, d, e, f] == [a, b, c, d, e, f];
  }

  lemma VectorSeedOf()
    ensures SeedOf(TK, [0x8dea, 0x602f, 0x6dca, 0x7413, 0x4a23, 0x0b66], 0) == RC4_KEY
  {
    VectorKeyWords();
    SixWordsOut(0x8dea, 0x602f, 0x6dca, 0x7413, 0x4a23, 0x0b66);
    assert TkWord(TK, 0) == 0x0100;
  }

  lemma VectorMixing(S: bv16 -> bv16)
    requires HasS8(S)
    ensures MixByRotation(TK, MixWithS(S, TK, [0x3dd2, 0x016e, 0x76f4, 0x8697, 0xb2e8, 0xb2e8])) ==
      [0x8dea, 0x602f, 0x6dca, 0x7413, 0x4a23, 0x0b66]
  {
    VectorKeyWords();
    VectorMixWords(S);
    VectorRotateWords();
  }

  lemma VectorPhase2(S: bv16 -> bv16, t: Ring, n: nat)
    requires HasS8(S) && n == 6 && t == [0x3dd2, 0x016e, 0x76f4, 0x8697, 0xb2e8]
    ensures Phase2(S, TK, t, 0) == [0x8dea, 0x602f, 0x6dca, 0x7413, 0x4a23, 0x0b66]
  {
    Phase2Is(S, TK, t, 0, n);
    VectorInit(t);
    VectorMixing(S);
  }

  lemma VectorInit(t: Ring)
    requires t == [0x3dd2, 0x016e, 0x76f4, 0x8697, 0xb2e8]
    ensures t + [Plus(0, t[4])] == [0x3dd2, 0x016e, 0x76f4, 0x8697, 0xb2e8, 0xb2e8]
  {
  }

  /** The phase 1 key and the RC4 key are those of the standard. */
  lemma VectorSeed(n: nat)
    requires n == 8
    ensures Phase1(TkipSbox.S, TK, TA, 0) == [0x3dd2, 0x016e, 0x76f4, 0x8697, 0xb2e8]
    ensures Seed(TkipSbox.S, TK, TA, 0, 0) == RC4_KEY
  {
    VectorPhase1(n);
    VectorS8();
    VectorPhase2(TkipSbox.S, [0x3dd2, 0x016e, 0x76f4, 0x8697, 0xb2e8], n - 2);
    VectorSeedOf();
  }
}
