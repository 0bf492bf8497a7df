/** 16-bit words with wrap-around addition. */
module Word16 {

  function Plus(x: bv16, y: bv16): bv16 { x + y }
  function Not(x: bv16): bv16 { !x }
  function Minus(x: bv16, y: bv16): bv16 { Not(Plus(Not(x), y)) }

  lemma AddSubtracted(x: bv16, y: bv16)
    ensures Plus(Minus(x, y), y) == x
  {
  }

  lemma NotTwice(x: bv16)
    ensures Not(Not(x)) == x
  {
  }

  lemma SubtractAdded(x: bv16, y: bv16)
    ensures Minus(Plus(x, y), y) == x
  {
    AddSubtracted(Not(x), y);
    NotTwice(x);
    NotTwice(Plus(x, y));
  }
}

/**
 TKIP key mixing (tkip_mixing_phase1 and tkip_mixing_phase2 in hostap08/wlantest/tkip.c).  Both phases
 feed each word of a ring from the word before it; the S-box S is a parameter here.
 */
module TkipMixing {
  import opened Octets
  import opened Word16

  type Ring = p: seq<bv16> | |p| >= 2 witness [0, 0]

  function Before(i: nat, n: nat): (j: nat)
    requires i < n && n >= 2
    ensures j < n && j != i
  {
    if i == 0 then n - 1 else i - 1
  }

  /** Step k: one word is increased by a function of the word before it. */
  function Feed(f: (nat, bv16) -> bv16, p: Ring, k: nat): (q: Ring)
    ensures |q| == |p|
  {
    var i := k % |p|;
    p[i := Plus(p[i], f(k, p[Before(i, |p|)]))]
  }

  function Unfeed(f: (nat, bv16) -> bv16, p: Ring, k: nat): (q: Ring)
    ensures |q| == |p|
  {
    var i := k % |p|;
    p[i := Minus(p[i], f(k, p[Before(i, |p|)]))]
  }

  /** The state after the first k steps. */
  function Forth<T>(step: (T, nat) -> T, p: T, k: nat): T
    decreases k
  {
    if k == 0 then p else step(Forth(step, p, k - 1), k - 1)
  }

  /** The state before the first k steps. */
  function Back<T>(undo: (T, nat) -> T, p: T, k: nat): T
    decreases k
  {
    if k == 0 then p else Back(undo, undo(p, k - 1), k - 1)
  }

  lemma {:induction false} ForthBijective<T(!new)>(step: (T, nat) -> T, undo: (T, nat) -> T, p: T, k: nat)
    requires forall q, i :: undo(step(q, i), i) == q
    requires forall q, i :: step(undo(q, i), i) == q
    ensures Back(undo, Forth(step, p, k), k) == p
    ensures Forth(step, Back(undo, p, k), k) == p
    decreases k
  {
    if k > 0 {
      ForthBijective(step, undo, p, k - 1);
      ForthBijective(step, undo, undo(p, k - 1), k - 1);
    }
  }

  /** The ring after the first k steps. */
  function Run(f: (nat, bv16) -> bv16, p: Ring, k: nat): Ring {
    Forth((q, i) => Feed(f, q, i), p, k)
  }

  function Rewind(f: (nat, bv16) -> bv16, p: Ring, k: nat): Ring {
    Back((q, i) => Unfeed(f, q, i), p, k)
  }

  lemma FeedBijective(f: (nat, bv16) -> bv16, p: Ring, k: nat)
    ensures Unfeed(f, Feed(f, p, k), k) == p
    ensures Feed(f, Unfeed(f, p, k), k) == p
  {
    var i := k % |p|;
    var d := f(k, p[Before(i, |p|)]);
    SubtractAdded(p[i], d);
    AddSubtracted(p[i], d);
  }

  /** Mixing any number of steps, with any functions, is a bijection of the ring. */
  lemma RunBijective(f: (nat, bv16) -> bv16, p: Ring, k: nat)
    ensures Rewind(f, Run(f, p, k), k) == p
    ensures Run(f, Rewind(f, p, k), k) == p
  {
    forall q: Ring, i: nat ensures Unfeed(f, Feed(f, q, i), i) == q && Feed(f, Unfeed(f, q, i), i) == q {
      FeedBijective(f, q, i);
    }
    ForthBijective((q, i) => Feed(f, q, i), (q, i) => Unfeed(f, q, i), p, k);
  }

  // ---- Phase 1: transmitter address and the high 32 bits of the sequence counter

  function Mk16(hi: bv8, lo: bv8): bv16 { lo as bv16 | (hi as bv16 << 8) }
  function Lo16(v: bv32): bv16 { (v & 0xffff) as bv16 }
  function Hi16(v: bv32): bv16 { (v >> 16) as bv16 }

  /** Octets of the temporal key used in word pos of round r. */
  function Phase1Key(tk: Octets, r: nat, pos: nat): bv16
    requires |tk| >= 16 && pos < 5
  {
    var j := 2 * (r % 2) + (if pos == 4 then 0 else 4 * pos);
    Mk16(tk[1 + j], tk[j])
  }

  function Keyed(F: bv16 -> bv16, key: bv16, x: bv16): bv16 { F(x ^ key) }

  /** The number of a round as a word. */
  function RoundWord(r: nat): bv16 { (r % 8) as bv16 }

  /** What word pos of round r grows by. */
  function Phase1At(S: bv16 -> bv16, tk: Octets, r: nat, pos: nat, x: bv16): bv16
    requires |tk| >= 16 && pos < 5
  {
    var s := Keyed(S, Phase1Key(tk, r, pos), x);
    if pos == 4 then Plus(s, RoundWord(r)) else s
  }

  function Phase1Feed(S: bv16 -> bv16, tk: Octets, k: nat, x: bv16): bv16
    requires |tk| >= 16
  {
    Phase1At(S, tk, k / 5, k % 5, x)
  }

  function Phase1Init(ta: Octets, iv32: bv32): (p: Ring)
    requires |ta| == 6
    ensures |p| == 5
  {
    [Lo16(iv32), Hi16(iv32), Mk16(ta[1], ta[0]), Mk16(ta[3], ta[2]), Mk16(ta[5], ta[4])]
  }

  function Phase1Feeds(S: bv16 -> bv16, tk: Octets): (nat, bv16) -> bv16
    requires |tk| >= 16
  {
    (k: nat, x: bv16) => Phase1Feed(S, tk, k, x)
  }

  function Phase1(S: bv16 -> bv16, tk: Octets, ta: Octets, iv32: bv32): (ttak: Ring)
    requires |tk| >= 16 && |ta| == 6
    ensures |ttak| == 5
  {
    var p := Phase1Init(ta, iv32);
    RunKeepsLength(Phase1Feeds(S, tk), p, 8 * |p|);
    Run(Phase1Feeds(S, tk), p, 8 * |p|)
  }

  lemma {:induction false} RunKeepsLength(f: (nat, bv16) -> bv16, p: Ring, k: nat)
    ensures |Run(f, p, k)| == |p|
    decreases k
  {
    if k > 0 {
      RunKeepsLength(f, p, k - 1);
    }
  }

  lemma RunInjective(f: (nat, bv16) -> bv16, p: Ring, q: Ring, k: nat)
    requires Run(f, p, k) == Run(f, q, k)
    ensures p == q
  {
    RunBijective(f, p, k);
    RunBijective(f, q, k);
  }

  lemma WordsOfInit(ta: Octets, ta': Octets, iv: bv32, iv': bv32)
    requires |ta| == 6 && |ta'| == 6 && Phase1Init(ta, iv) == Phase1Init(ta', iv')
    ensures ta == ta' && iv == iv'
  {
    var p, q := Phase1Init(ta, iv), Phase1Init(ta', iv');
    assert p[0] == q[0] && p[1] == q[1] && p[2] == q[2] && p[3] == q[3] && p[4] == q[4];
    Mk16Injective(ta[1], ta[0], ta'[1], ta'[0]);
    Mk16Injective(ta[3], ta[2], ta'[3], ta'[2]);
    Mk16Injective(ta[5], ta[4], ta'[5], ta'[4]);
    HalvesInjective(iv, iv');
  }

  lemma Mk16Injective(a: bv8, b: bv8, c: bv8, d: bv8)
    requires Mk16(a, b) == Mk16(c, d)
    ensures a == c && b == d
  {
  }

  lemma HalvesInjective(v: bv32, w: bv32)
    requires Lo16(v) == Lo16(w) && Hi16(v) == Hi16(w)
    ensures v == w
  {
  }

  /** Different transmitters or different high counters never share a phase 1 key. */
  lemma Phase1Injective(S: bv16 -> bv16, tk: Octets, ta: Octets, iv: bv32, ta': Octets, iv': bv32)
    requires |tk| >= 16 && |ta| == 6 && |ta'| == 6
    requires Phase1(S, tk, ta, iv) == Phase1(S, tk, ta', iv')
    ensures ta == ta' && iv == iv'
  {
    var p, q := Phase1Init(ta, iv), Phase1Init(ta', iv');
    RunInjective(Phase1Feeds(S, tk), p, q, 8 * |p|);
    WordsOfInit(ta, ta', iv, iv');
  }

  // ---- Phase 2: the low 16 bits of the sequence counter

  function RotR1(v: bv16): bv16 { (v >> 1) | (v << 15) }
  function Lo8(v: bv16): bv8 { (v & 0xff) as bv8 }
  function Hi8(v: bv16): bv8 { (v >> 8) as bv8 }

  function TkWord(tk: Octets, k: nat): bv16
    requires |tk| >= 16 && k < 8
  {
    Le16(tk[2 * k..2 * k + 2])
  }

  function Phase2Feed(S: bv16 -> bv16, tk: Octets, k: nat, x: bv16): bv16
    requires |tk| >= 16
  {
    if k < 6 then Keyed(S, TkWord(tk, k), x) else if k < 8 then Keyed(RotR1, TkWord(tk, k), x) else RotR1(x)
  }

  function Phase2Init(ttak: Ring, iv16: bv16): (p: Ring)
    requires |ttak| == 5
    ensures |p| == 6
  {
    ttak + [Plus(iv16, ttak[4])]
  }

  function Phase2Feeds(S: bv16 -> bv16, tk: Octets): (nat, bv16) -> bv16
    requires |tk| >= 16
  {
    (k: nat, x: bv16) => Phase2Feed(S, tk, k, x)
  }

  /** The 96-bit bijective mixing. */
  function Phase2(S: bv16 -> bv16, tk: Octets, ttak: Ring, iv16: bv16): (ppk: Ring)
    requires |tk| >= 16 && |ttak| == 5
    ensures |ppk| == 6
  {
    var p := Phase2Init(ttak, iv16);
    RunKeepsLength(Phase2Feeds(S, tk), p, 2 * |p|);
    Run(Phase2Feeds(S, tk), p, 2 * |p|)
  }

  lemma Phase2Injective(S: bv16 -> bv16, tk: Octets, t: Ring, iv: bv16, t': Ring, iv': bv16)
    requires |tk| >= 16 && |t| == 5 && |t'| == 5
    requires Phase2(S, tk, t, iv) == Phase2(S, tk, t', iv')
    ensures t == t' && iv == iv'
  {
    var p, q := Phase2Init(t, iv), Phase2Init(t', iv');
    RunInjective(Phase2Feeds(S, tk), p, q, 2 * |p|);
    assert t == p[..5] && t' == q[..5] && p[5] == q[5];
    SubtractAdded(iv, t[4]);
    SubtractAdded(iv', t[4]);
  }

  // ---- The per-packet RC4 key

  function PutWords(p: seq<bv16>): (r: Octets)
    ensures |r| == 2 * |p|
  {
    if p == [] then [] else PutLe16(p[0]) + PutWords(p[1..])
  }

  function SeedOf(tk: Octets, ppk: Ring, iv16: bv16): (r: Octets)
    requires |tk| >= 16 && |ppk| == 6
    ensures |r| == 16
  {
    [Hi8(iv16), (Hi8(iv16) | 0x20) & 0x7f, Lo8(iv16), Lo8((ppk[5] ^ TkWord(tk, 0)) >> 1)] + PutWords(ppk)
  }

  function Seed(S: bv16 -> bv16, tk: Octets, ta: Octets, iv32: bv32, iv16: bv16): (r: Octets)
    requires |tk| >= 16 && |ta| == 6
    ensures |r| == 16
  {
    SeedOf(tk, Phase2(S, tk, Phase1(S, tk, ta, iv32), iv16), iv16)
  }

  lemma SeedOfWords(tk: Octets, ppk: Ring, iv16: bv16)
    requires |tk| >= 16 && |ppk| == 6
    ensures SeedOf(tk, ppk, iv16)[4..] == PutWords(ppk)
  {
  }

  lemma {:induction false} PutWordsInjective(p: seq<bv16>, q: seq<bv16>)
    requires |p| == |q| && PutWords(p) == PutWords(q)
    ensures p == q
  {
    if p != [] {
      assert PutLe16(p[0]) == PutWords(p)[..2] && PutWords(p[1..]) == PutWords(p)[2..];
      assert PutLe16(q[0]) == PutWords(q)[..2] && PutWords(q[1..]) == PutWords(q)[2..];
      Le16Inverse(p[0], [0, 0]);
      Le16Inverse(q[0], [0, 0]);
      PutWordsInjective(p[1..], q[1..]);
    }
  }

  /** Under one temporal key, no two (transmitter, sequence counter) pairs share an RC4 key. */
  lemma SeedInjective(S: bv16 -> bv16, tk: Octets, ta: Octets, hi: bv32, lo: bv16, ta': Octets, hi': bv32, lo': bv16)
    requires |tk| >= 16 && |ta| == 6 && |ta'| == 6
    requires Seed(S, tk, ta, hi, lo) == Seed(S, tk, ta', hi', lo')
    ensures ta == ta' && hi == hi' && lo == lo'
  {
    var t, t' := Phase1(S, tk, ta, hi), Phase1(S, tk, ta', hi');
    var p, p' := Phase2(S, tk, t, lo), Phase2(S, tk, t', lo');
    SeedOfWords(tk, p, lo);
    SeedOfWords(tk, p', lo');
    PutWordsInjective(p, p');
    Phase2Injective(S, tk, t, lo, t', lo');
    Phase1Injective(S, tk, ta, hi, ta', hi');
  }
}
