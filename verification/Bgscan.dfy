/** Choosing the frequencies of a background scan (hostap08/wpa_supplicant/bgscan_learn.c). */
module Bgscan {
  import opened Lists
  import opened Modular

  // ---- Zero-terminated arrays

  /** The entries before the terminator. */
  function BeforeZero(a: seq<int>): (r: seq<int>)
    ensures 0 !in a ==> r == a
  {
    if a == [] || a[0] == 0 then [] else [a[0]] + BeforeZero(a[1..])
  }

  /** No array is the null pointer. */
  function Terminated(s: seq<int>): seq<int> {
    if s == [] then [] else s + [0]
  }

  lemma {:induction false} BeforeTerminator(s: seq<int>)
    ensures BeforeZero(Terminated(s)) == BeforeZero(s)
    ensures BeforeZero(s + [0]) == BeforeZero(s)
  {
    if s != [] {
      BeforeTerminator(s[1..]);
      assert (s + [0])[1..] == s[1..] + [0];
    }
  }

  method InArray(a: seq<int>, val: int) returns (r: bool)
    requires a == [] || 0 in a
    ensures r <==> val in BeforeZero(a)
  {
    if a == [] {
      return false;
    }
    var i := 0;
    assert a[0..] == a;
    while a[i] != 0
      invariant i < |a| && 0 in a[i..]
      invariant val in BeforeZero(a) <==> val in BeforeZero(a[i..])
      decreases |a| - i
    {
      assert a[i..] == [a[i]] + a[i + 1..];
      if a[i] == val {
        return true;
      }
      i := i + 1;
    }
    return false;
  }

  // ---- Learned frequencies

  /** Each frequency once, in the order of its first BSS; a zero ends what later ones are compared with. */
  function Learned(fs: seq<int>): seq<int> {
    if fs == [] then []
    else
      var acc, f := Learned(fs[..|fs| - 1]), fs[|fs| - 1];
      if f in BeforeZero(acc) then acc else acc + [f]
  }

  predicate Differ(x: int, y: int) { x != y }

  lemma {:induction false} LearnedMembers(fs: seq<int>)
    requires 0 !in fs
    ensures Pairwise(Learned(fs), Differ) && forall f :: f in Learned(fs) <==> f in fs
  {
    if fs != [] {
      var init, f := fs[..|fs| - 1], fs[|fs| - 1];
      LearnedMembers(init);
      assert fs == init + [f];
    }
  }

  /** What is learned stays in its place: the order is that of the first BSS on each frequency. */
  lemma {:induction false} LearnedGrows(fs: seq<int>, k: nat)
    requires k <= |fs|
    ensures Learned(fs[..k]) <= Learned(fs)
  {
    if k == |fs| {
      assert fs[..k] == fs;
    } else {
      var init := fs[..|fs| - 1];
      LearnedGrows(init, k);
      assert init[..k] == fs[..k];
    }
  }

  method GetFreqs(bss: seq<int>) returns (freqs: seq<int>, count: nat)
    ensures freqs == Terminated(Learned(bss)) && count == |Learned(bss)|
  {
    freqs, count := [], 0;
    var k := 0;
    while k < |bss|
      invariant 0 <= k <= |bss|
      invariant freqs == Terminated(Learned(bss[..k])) && count == |Learned(bss[..k])|
    {
      assert bss[..k + 1][..k] == bss[..k];
      freqs, count := AddFreq(freqs, count, bss[k], Learned(bss[..k]));
      k := k + 1;
    }
    assert bss[..k] == bss;
  }

  method AddFreq(freqs: seq<int>, count: nat, f: int, ghost acc: seq<int>) returns (r: seq<int>, n: nat)
    requires freqs == Terminated(acc) && count == |acc|
    ensures var next := if f in BeforeZero(acc) then acc else acc + [f]; r == Terminated(next) && n == |next|
  {
    BeforeTerminator(acc);
    r, n := freqs, count;
    var known := InArray(freqs, f);
    if !known {
      r := freqs[..count] + [f] + [0];
      n := count + 1;
      assert freqs[..count] == acc;
    }
  }

  // ---- The next frequency to probe

  /** The positions of the supported frequencies that are not in the list. */
  function Unlearned(supp: seq<int>, freqs: seq<int>): nat -> bool {
    (i: nat) => i < |supp| && supp[i] !in BeforeZero(freqs)
  }

  ghost predicate NoneIn(u: nat -> bool, lo: int, hi: int) {
    forall k: nat :: lo <= k < hi ==> !u(k)
  }

  /** The first position after p, in cyclic order, that satisfies u; p itself is looked at only if it is 0. */
  ghost predicate IsNext(n: nat, p: nat, u: nat -> bool, i: nat) {
    && i < n && u(i) && (i == p ==> p == 0)
    && if i > p then NoneIn(u, p + 1, i) else NoneIn(u, p + 1, n) && NoneIn(u, 0, i)
  }

  /** The loop ends: it finds a position, or comes back to a p that it can meet at its test. */
  ghost predicate Ends(n: nat, p: nat, u: nat -> bool) {
    p > 0 || exists i: nat :: i < n && u(i)
  }

  class BgscanLearn {
    var suppFreqs: seq<int>
    var probeIdx: nat

    /** A null pointer, or at least one frequency and the terminator. */
    ghost predicate Valid()
      reads this
    {
      suppFreqs == [] ||
      (suppFreqs == Supported() + [0] && 0 !in Supported() && probeIdx < |Supported()|)
    }

    function Supported(): (r: seq<int>)
      reads this
    {
      if suppFreqs == [] then [] else suppFreqs[..|suppFreqs| - 1]
    }

    constructor (supp: seq<int>)
      requires 0 !in supp
      ensures Valid() && Supported() == supp && probeIdx == 0
    {
      suppFreqs := Terminated(supp);
      probeIdx := 0;
      new;
      assert Supported() == supp;
    }

    method FindProbe(freqs: seq<int>) returns (found: bool, idx: nat, ghost turns: nat)
      requires Valid() && suppFreqs != [] && (freqs == [] || 0 in freqs)
      requires Ends(|Supported()|, probeIdx, Unlearned(Supported(), freqs))
      ensures var u := Unlearned(Supported(), freqs);
        if found then IsNext(|Supported()|, probeIdx, u, idx)
        else probeIdx > 0 && NoneIn(u, 0, probeIdx) && NoneIn(u, probeIdx + 1, |Supported()|)
      ensures turns <= |Supported()|
    {
      ghost var u := Unlearned(Supported(), freqs);
      ghost var wrapped := false;
      found, turns := false, 0;
      idx := probeIdx + 1;
      while idx != probeIdx
        invariant if wrapped
          then NoneIn(u, probeIdx + 1, |Supported()|) && NoneIn(u, 0, idx) && 1 <= idx <= probeIdx
            && turns == |Supported()| - probeIdx - 1 + idx
          else probeIdx < idx <= |Supported()| && NoneIn(u, probeIdx + 1, idx) && turns == idx - probeIdx - 1
        decreases if wrapped then probeIdx - idx else |Supported()| - idx + probeIdx + 1
      {
        turns := turns + 1;
        assert idx < |Supported()| ==> suppFreqs[idx] == Supported()[idx];
        if suppFreqs[idx] == 0 {
          idx := 0;
          wrapped := true;
        }
        assert idx < |Supported()|;
        var known := InArray(freqs, suppFreqs[idx]);
        assert u(idx) <==> !known;
        if !known {
          found := true;
          return;
        }
        idx := idx + 1;
      }
    }

    method GetProbeFreq(freqs: seq<int>, count: nat, ghost content: seq<int>) returns (r: seq<int>, ghost turns: nat)
      requires Valid() && freqs == Terminated(content) && count == |content|
      requires suppFreqs != [] ==> Ends(|Supported()|, probeIdx, Unlearned(Supported(), freqs))
      modifies this`probeIdx
      ensures Valid()
      ensures turns <= |Supported()|
      ensures suppFreqs == [] ==> r == freqs && probeIdx == old(probeIdx)
      ensures var u := Unlearned(Supported(), freqs);
        suppFreqs == [] || if exists i: nat :: u(i) && (i == old(probeIdx) ==> i == 0)
        then IsNext(|Supported()|, old(probeIdx), u, probeIdx) && r == Terminated(content + [suppFreqs[probeIdx]])
        else r == freqs && probeIdx == old(probeIdx)
    {
      if suppFreqs == [] {
        return freqs, 0;
      }
      var found, idx;
      found, idx, turns := FindProbe(freqs);
      r := freqs;
      if found {
        probeIdx := idx;
        r := freqs[..count] + [suppFreqs[idx]] + [0];
        assert r == Terminated(content + [suppFreqs[idx]]);
      }
    }
  }

  // ---- When the loop ends

  /** The index at the k-th test of the loop, as long as nothing is found. */
  function TestIndex(n: nat, p: nat, k: nat): nat {
    if k == 0 then p + 1
    else
      var idx := TestIndex(n, p, k - 1);
      (if idx == n then 0 else idx) + 1
  }

  /** The position looked at in the k-th turn. */
  function Position(n: nat, p: nat, k: nat): nat {
    var idx := TestIndex(n, p, k);
    if idx == n then 0 else idx
  }

  lemma {:induction false} TestIndexIs(n: nat, p: nat, k: nat)
    requires p < n && k < n
    ensures TestIndex(n, p, k) == if p + 1 + k <= n then p + 1 + k else p + 1 + k - n
  {
    if k > 0 {
      TestIndexIs(n, p, k - 1);
    }
  }

  lemma {:induction false} PositionInRange(n: nat, p: nat, k: nat)
    requires p < n
    ensures 1 <= TestIndex(n, p, k) <= n
  {
    if k > 0 {
      PositionInRange(n, p, k - 1);
    }
  }

  /** The loop leaves, by its test or by finding something, within one pass exactly if Ends holds. */
  lemma LoopEndsIff(n: nat, p: nat, u: nat -> bool)
    requires p < n
    ensures (exists k: nat :: k < n && (TestIndex(n, p, k) == p || u(Position(n, p, k)))) <==> Ends(n, p, u)
  {
    if k: nat :| k < n && (TestIndex(n, p, k) == p || u(Position(n, p, k))) {
      PositionInRange(n, p, k);
      assert u(Position(n, p, k)) ==> Position(n, p, k) < n;
    }
    if p > 0 {
      TestIndexIs(n, p, n - 1);
      assert TestIndex(n, p, n - 1) == p;
    } else if i: nat :| i < n && u(i) {
      var k := if i == 0 then n - 1 else i - 1;
      TestIndexIs(n, p, k);
      assert u(Position(n, p, k));
    }
  }

  /** If it does not leave within one pass, it never does. */
  lemma LoopNeverEnds(n: nat, p: nat, u: nat -> bool, k: nat)
    requires p < n && !Ends(n, p, u)
    ensures TestIndex(n, p, k) != p && !u(Position(n, p, k))
  {
    PositionInRange(n, p, k);
  }

  // ---- Successive probes with a fixed set of learned frequencies

  function Range(n: nat): (r: seq<nat>) {
    seq(n, i => i)
  }

  /** The positions to be probed, in increasing order. */
  function Open(n: nat, u: nat -> bool): seq<nat> {
    Keep(Range(n), u)
  }

  lemma OpenIs(n: nat, u: nat -> bool)
    ensures Pairwise(Open(n, u), Less) && forall i: nat :: i in Open(n, u) <==> i < n && u(i)
  {
    KeepPairwise(Range(n), u, Less);
    forall i: nat ensures i in Open(n, u) <==> i < n && u(i) {
      KeepMembers(Range(n), u, i);
      assert i < n ==> Range(n)[i] == i;
    }
  }

  /** Positions are ordered as the elements are. */
  lemma SortedPositions(s: seq<nat>, a: nat, b: nat)
    requires Pairwise(s, Less) && a < |s| && b < |s|
    ensures (s[a] < s[b] <==> a < b) && (s[a] <= s[b] <==> a <= b)
  {
    assert a < b ==> Less(s[a], s[b]);
    assert b < a ==> Less(s[b], s[a]);
  }

  lemma NextAfter(open: seq<nat>, n: nat, u: nat -> bool, j: nat, q: nat)
    requires Pairwise(open, Less) && forall i: nat :: i in open <==> i < n && u(i)
    requires j < |open| && q < |open| && IsNext(n, open[j], u, open[q]) && open[q] > open[j]
    ensures q == j + 1
  {
    SortedPositions(open, j, q);
    var next := open[j + 1];
    assert next in open && Less(open[j], next);
    assert next >= open[q];
    SortedPositions(open, q, j + 1);
  }

  lemma NextAround(open: seq<nat>, n: nat, u: nat -> bool, j: nat, q: nat)
    requires Pairwise(open, Less) && forall i: nat :: i in open <==> i < n && u(i)
    requires j < |open| && q < |open| && IsNext(n, open[j], u, open[q]) && open[q] <= open[j]
    ensures q == 0 && j + 1 == |open|
  {
    var first, last := open[0], open[|open| - 1];
    assert first in open && last in open;
    assert first >= open[q] && last <= open[j];
    SortedPositions(open, q, 0);
    SortedPositions(open, |open| - 1, j);
  }

  /** With two or more positions to probe, the next one is the cyclic successor, never the same again. */
  lemma NextIsSuccessor(n: nat, u: nat -> bool, j: nat, i: nat)
    requires var open := Open(n, u); |open| >= 2 && j < |open| && IsNext(n, open[j], u, i)
    ensures var open := Open(n, u); i == open[Successor(j, |open|)] && i != open[j]
  {
    var open := Open(n, u);
    OpenIs(n, u);
    var q :| 0 <= q < |open| && open[q] == i;
    if i > open[j] {
      NextAfter(open, n, u, j, q);
    } else {
      NextAround(open, n, u, j, q);
      assert Less(open[0], open[j]);
    }
  }

  /** Each call goes on from where the one before it stopped. */
  ghost predicate Probing(n: nat, u: nat -> bool, probes: nat -> nat) {
    forall t: nat :: IsNext(n, probes(t), u, probes(t + 1))
  }

  lemma ProbingAt(n: nat, u: nat -> bool, probes: nat -> nat, t: nat)
    requires Probing(n, u, probes)
    ensures IsNext(n, probes(t), u, probes(t + 1))
  {
  }

  /** From a position that is open, successive calls go round the open positions in order. */
  lemma {:induction false} GoRoundFrom(n: nat, u: nat -> bool, probes: nat -> nat, s: nat, j: nat, k: nat)
    requires var open := Open(n, u); |open| >= 2 && j < |open| && probes(s) == open[j]
    requires Probing(n, u, probes)
    ensures var open := Open(n, u); probes(s + k) == open[Rotate(j, k, |open|)]
    decreases k
  {
    var m := |Open(n, u)|;
    RotateStep(j, if k == 0 then 0 else k - 1, m);
    if k > 0 {
      GoRoundFrom(n, u, probes, s, j, k - 1);
      ProbingAt(n, u, probes, s + k - 1);
      NextIsSuccessor(n, u, Rotate(j, k - 1, m), probes(s + k));
    }
  }

  /** Wherever the index stood before, from the first call on the calls go round the open positions in order. */
  lemma ProbesGoRound(n: nat, u: nat -> bool, probes: nat -> nat) returns (j: nat)
    requires |Open(n, u)| >= 2 && Probing(n, u, probes)
    ensures j < |Open(n, u)| && forall k: nat :: probes(1 + k) == Open(n, u)[Rotate(j, k, |Open(n, u)|)]
  {
    var open := Open(n, u);
    OpenIs(n, u);
    ProbingAt(n, u, probes, 0);
    assert probes(1) in open;
    j :| 0 <= j < |open| && open[j] == probes(1);
    forall k: nat ensures probes(1 + k) == open[Rotate(j, k, |open|)] {
      GoRoundFrom(n, u, probes, 1, j, k);
    }
  }

  /** Any |open| successive calls probe every open position exactly once. */
  lemma OncePerCycle(n: nat, u: nat -> bool, probes: nat -> nat, k: nat, i: nat) returns (t: nat)
    requires |Open(n, u)| >= 2 && Probing(n, u, probes) && k >= 1 && i < n && u(i)
    ensures k <= t < k + |Open(n, u)| && probes(t) == i
    ensures forall t': nat :: k <= t' < k + |Open(n, u)| && probes(t') == i ==> t' == t
  {
    var open := Open(n, u);
    var m := |open|;
    OpenIs(n, u);
    var j := ProbesGoRound(n, u, probes);
    var q :| 0 <= q < m && open[q] == i;
    var b := HitsRemainder(j + k - 1, m, q);
    t := b - j + 1;
    assert probes(1 + (t - 1)) == open[Rotate(j, t - 1, m)];
    forall t': nat | k <= t' < k + m && probes(t') == i ensures t' == t {
      assert probes(1 + (t' - 1)) == open[Rotate(j, t' - 1, m)];
      SortedPositions(open, Rotate(j, t' - 1, m), q);
      if t <= t' {
        SameRemainder(j + t - 1, j + t' - 1, m);
      } else {
        SameRemainder(j + t' - 1, j + t - 1, m);
      }
    }
  }

  /** An unlearned frequency has an open position. */
  lemma OpenFrequency(supp: seq<int>, freqs: seq<int>, f: int) returns (i: nat)
    requires f in supp && f !in BeforeZero(freqs)
    ensures i < |supp| && supp[i] == f && Unlearned(supp, freqs)(i)
  {
    i :| 0 <= i < |supp| && supp[i] == f;
  }

  /**
   With distinct supported frequencies of which n >= 2 are unlearned, any n successive calls probe each
   unlearned frequency exactly once, and no other.
   */
  lemma EachFrequencyOncePerCycle(supp: seq<int>, freqs: seq<int>, probes: nat -> nat, k: nat, f: int) returns (t: nat)
    requires Pairwise(supp, Differ) && k >= 1 && f in supp && f !in BeforeZero(freqs)
    requires var u := Unlearned(supp, freqs); |Open(|supp|, u)| >= 2 && Probing(|supp|, u, probes)
    ensures var n := |Open(|supp|, Unlearned(supp, freqs))|; k <= t < k + n
    ensures probes(t) < |supp| && supp[probes(t)] == f
    ensures forall t': nat :: k <= t' < k + |Open(|supp|, Unlearned(supp, freqs))| ==>
      probes(t') < |supp| && supp[probes(t')] !in BeforeZero(freqs) && (supp[probes(t')] == f ==> t' == t)
  {
    var u := Unlearned(supp, freqs);
    var i := OpenFrequency(supp, freqs, f);
    t := OncePerCycle(|supp|, u, probes, k, i);
    forall t': nat | k <= t' < k + |Open(|supp|, u)|
      ensures probes(t') < |supp| && supp[probes(t')] !in BeforeZero(freqs) && (supp[probes(t')] == f ==> t' == t)
    {
      ProbingAt(|supp|, u, probes, t' - 1);
      assert u(probes(t'));
      if supp[probes(t')] == f {
        SameFrequency(supp, probes(t'), i);
      }
    }
  }

  lemma SameFrequency(supp: seq<int>, i: nat, j: nat)
    requires Pairwise(supp, Differ) && i < |supp| && j < |supp| && supp[i] == supp[j]
    ensures i == j
  {
    assert i < j ==> Differ(supp[i], supp[j]);
    assert j < i ==> Differ(supp[j], supp[i]);
  }

  /** The frequency that is probed is new to the list, so the list stays free of duplicates. */
  lemma ProbedListDistinct(fs: seq<int>, supp: seq<int>, p: nat, i: nat)
    requires 0 !in fs && IsNext(|supp|, p, Unlearned(supp, Terminated(Learned(fs))), i)
    ensures Pairwise(Learned(fs) + [supp[i]], Differ)
  {
    LearnedMembers(fs);
    BeforeTerminator(Learned(fs));
    PairwiseAppend(Learned(fs), supp[i], Differ);
  }
}
