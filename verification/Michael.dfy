/** 32-bit words with wrap-around addition. */
module Word32 {

  function Plus(x: bv32, y: bv32): bv32 { x + y }
  function Not(x: bv32): bv32 { !x }
  function Minus(x: bv32, y: bv32): bv32 { Not(Plus(Not(x), y)) }
  function Xor32(x: bv32, y: bv32): bv32 { x ^ y }

  lemma AddSubtracted(x: bv32, y: bv32)
    ensures Plus(Minus(x, y), y) == x
  {
  }

  lemma NotTwice(x: bv32)
    ensures Not(Not(x)) == x
  {
  }

  lemma SubtractAdded(x: bv32, y: bv32)
    ensures Minus(Plus(x, y), y) == x
  {
    AddSubtracted(Not(x), y);
    NotTwice(x);
    NotTwice(Plus(x, y));
  }

  lemma XorTwice(x: bv32, y: bv32)
    ensures Xor32(Xor32(x, y), y) == x
  {
    assert (x ^ y) ^ y == x;
  }

  lemma WordArithmetic()
    ensures forall x, y :: Minus(Plus(x, y), y) == x
    ensures forall x, y :: Plus(Minus(x, y), y) == x
    ensures forall x, y :: Xor32(Xor32(x, y), y) == x
  {
    forall x, y ensures Minus(Plus(x, y), y) == x { SubtractAdded(x, y); }
    forall x, y ensures Plus(Minus(x, y), y) == x { AddSubtracted(x, y); }
    forall x, y ensures Xor32(Xor32(x, y), y) == x { XorTwice(x, y); }
  }
}

/** The Michael message integrity code (hostap08/wlantest/tkip.c; section 8.3.2.3 of IEEE Std 802.11-2007). */
module Michael {
  import opened Octets
  import opened Word32

  datatype Pair = Pair(l: bv32, r: bv32)

  // ---- michael_block

  function RotL(v: bv32, bits: nat): bv32
    requires 0 < bits < 32
  {
    (v << bits) | (v >> (32 - bits))
  }

  function RotL17(v: bv32): bv32 { RotL(v, 17) }
  function XSwap(v: bv32): bv32 { ((v & 0x00ff00ff) << 8) | ((v & 0xff00ff00) >> 8) }
  function RotL3(v: bv32): bv32 { RotL(v, 3) }
  function RotR2(v: bv32): bv32 { (v >> 2) | (v << 30) }

  /** r ^= f(l); l += r */
  function Half(f: bv32 -> bv32, p: Pair): Pair {
    var r := Xor32(p.r, f(p.l));
    Pair(Plus(p.l, r), r)
  }

  function UndoHalf(f: bv32 -> bv32, p: Pair): Pair {
    var l := Minus(p.l, p.r);
    Pair(l, Xor32(p.r, f(l)))
  }

  function Block(p: Pair): Pair {
    Half(RotR2, Half(RotL3, Half(XSwap, Half(RotL17, p))))
  }

  function UndoBlock(p: Pair): Pair {
    UndoHalf(RotL17, UndoHalf(XSwap, UndoHalf(RotL3, UndoHalf(RotR2, p))))
  }

  lemma HalfUndone(f: bv32 -> bv32, p: Pair)
    ensures UndoHalf(f, Half(f, p)) == p
  {
    WordArithmetic();
  }

  lemma HalfRedone(f: bv32 -> bv32, p: Pair)
    ensures Half(f, UndoHalf(f, p)) == p
  {
    WordArithmetic();
  }

  lemma HalfBijective(f: bv32 -> bv32, p: Pair)
    ensures UndoHalf(f, Half(f, p)) == p
    ensures Half(f, UndoHalf(f, p)) == p
  {
    HalfUndone(f, p);
    HalfRedone(f, p);
  }

  lemma BlockBijective(p: Pair)
    ensures UndoBlock(Block(p)) == p
    ensures Block(UndoBlock(p)) == p
  {
    var a := Half(RotL17, p);
    var b := Half(XSwap, a);
    var c := Half(RotL3, b);
    HalfBijective(RotL17, p);
    HalfBijective(XSwap, a);
    HalfBijective(RotL3, b);
    HalfBijective(RotR2, c);
    var x := UndoHalf(RotR2, p);
    var y := UndoHalf(RotL3, x);
    var z := UndoHalf(XSwap, y);
    HalfBijective(RotR2, p);
    HalfBijective(RotL3, x);
    HalfBijective(XSwap, y);
    HalfBijective(RotL17, z);
  }

  // ---- Folding over the message

  function Fold<P, W>(f: (P, W) -> P, p: P, ws: seq<W>): P
    decreases |ws|
  {
    if ws == [] then p else Fold(f, f(p, ws[0]), ws[1..])
  }

  /** Run backwards over the message, undoing each step with g. */
  function Unfold<P, W>(g: (P, W) -> P, p: P, ws: seq<W>): P
    decreases |ws|
  {
    if ws == [] then p else g(Unfold(g, p, ws[1..]), ws[0])
  }

  lemma {:induction false} FoldBijective<P(!new), W(!new)>(f: (P, W) -> P, g: (P, W) -> P, p: P, ws: seq<W>)
    requires forall q, w :: g(f(q, w), w) == q
    requires forall q, w :: f(g(q, w), w) == q
    ensures Unfold(g, Fold(f, p, ws), ws) == p
    ensures Fold(f, Unfold(g, p, ws), ws) == p
    decreases |ws|
  {
    if ws != [] {
      FoldBijective(f, g, f(p, ws[0]), ws[1..]);
      FoldBijective(f, g, p, ws[1..]);
    }
  }

  /** l ^= word; michael_block(l, r) */
  function Mix(p: Pair, w: bv32): Pair {
    Block(Pair(Xor32(p.l, w), p.r))
  }

  function Unmix(p: Pair, w: bv32): Pair {
    var q := UndoBlock(p);
    Pair(Xor32(q.l, w), q.r)
  }

  lemma MixBijective()
    ensures forall p, w :: Unmix(Mix(p, w), w) == p
    ensures forall p, w :: Mix(Unmix(p, w), w) == p
  {
    forall p, w ensures Unmix(Mix(p, w), w) == p {
      XorTwice(p.l, w);
      BlockBijective(Pair(Xor32(p.l, w), p.r));
    }
    forall p, w ensures Mix(Unmix(p, w), w) == p {
      XorTwice(UndoBlock(p).l, w);
      BlockBijective(p);
    }
  }

  /** The message padded with 0x5a and 4 to 7 zeros. */
  function Padded(m: Octets): (r: Octets)
    ensures |r| % 4 == 0
  {
    m + [0x5a] + Zeros(7 - |m| % 4)
  }

  function Words(m: Octets): (ws: seq<bv32>)
    requires |m| % 4 == 0
    ensures |ws| == |m| / 4
  {
    if m == [] then [] else [Le32(m[..4])] + Words(m[4..])
  }

  function Message(hdr: Octets, data: Octets): (ws: seq<bv32>)
    requires |hdr| == 16
  {
    Words(hdr + Padded(data))
  }

  function FromOctets(key: Octets): Pair
    requires |key| == 8
  {
    Pair(Le32(key[..4]), Le32(key[4..]))
  }

  function ToOctets(p: Pair): (r: Octets)
    ensures |r| == 8
  {
    PutLe32(p.l) + PutLe32(p.r)
  }

  function Mic(key: Octets, hdr: Octets, data: Octets): (mic: Octets)
    requires |key| == 8 && |hdr| == 16
    ensures |mic| == 8
  {
    ToOctets(Fold(Mix, FromOctets(key), Message(hdr, data)))
  }

  // ---- For a fixed message, keys and codes correspond one to one

  function KeyFor(mic: Octets, hdr: Octets, data: Octets): (key: Octets)
    requires |mic| == 8 && |hdr| == 16
    ensures |key| == 8
  {
    ToOctets(Unfold(Unmix, FromOctets(mic), Message(hdr, data)))
  }

  lemma PairOctets(p: Pair, a: Octets)
    requires |a| == 8
    ensures FromOctets(ToOctets(p)) == p && ToOctets(FromOctets(a)) == a
  {
    Le32Inverse(p.l, a[..4]);
    Le32Inverse(p.r, a[4..]);
    assert ToOctets(p)[..4] == PutLe32(p.l) && ToOctets(p)[4..] == PutLe32(p.r);
    assert a[..4] + a[4..] == a;
  }

  lemma MicIsBijection(hdr: Octets, data: Octets, key: Octets, mic: Octets)
    requires |hdr| == 16 && |key| == 8 && |mic| == 8
    ensures Mic(key, hdr, data) == mic <==> key == KeyFor(mic, hdr, data)
  {
    var ws := Message(hdr, data);
    MixBijective();
    FoldBijective(Mix, Unmix, FromOctets(key), ws);
    FoldBijective(Mix, Unmix, FromOctets(mic), ws);
    PairOctets(Fold(Mix, FromOctets(key), ws), key);
    PairOctets(Unfold(Unmix, FromOctets(mic), ws), mic);
  }

  // ---- michael_mic

  lemma {:induction false} WordsAt(m: Octets, i: nat)
    requires |m| % 4 == 0 && i < |m| / 4
    ensures Words(m)[i] == Le32(m[4 * i..4 * i + 4])
    decreases i
  {
    if i > 0 {
      WordsAt(m[4..], i - 1);
      SubSlice(m, 4, |m|, 4 * i - 4, 4 * i);
      assert m[4..] == m[4..|m|];
    }
  }

  lemma PaddedTail(data: Octets, i: nat)
    requires i == |data| / 4 * 4
    ensures var p := Padded(data); |p| == i + 8 && p[i + 4] == 0 && p[i + 5] == 0 && p[i + 6] == 0 && p[i + 7] == 0
  {
  }

  lemma PaddedLast(data: Octets, i: nat)
    requires i == |data| / 4 * 4
    ensures i + 4 <= |Padded(data)|
    ensures var p, d := Padded(data)[i..i + 4], data[i..];
      && (|d| == 0 ==> p == [0x5a, 0, 0, 0])
      && (|d| == 1 ==> p == [d[0], 0x5a, 0, 0])
      && (|d| == 2 ==> p == [d[0], d[1], 0x5a, 0])
      && (|d| == 3 ==> p == [d[0], d[1], d[2], 0x5a])
  {
    var q := Padded(data);
    var p, d := q[i..i + 4], data[i..];
    assert p == [q[i], q[i + 1], q[i + 2], q[i + 3]];
    assert forall k :: 0 <= k < |d| ==> d[k] == data[i + k];
  }

  lemma TailWord0()
    ensures Le32([0x5a, 0, 0, 0]) == 0x5a
  {
  }

  lemma TailWord1(a: bv8)
    ensures Le32([a, 0x5a, 0, 0]) == a as bv32 | 0x5a00
  {
  }

  lemma TailWord2(a: bv8, b: bv8)
    ensures Le32([a, b, 0x5a, 0]) == a as bv32 | (b as bv32 << 8) | 0x5a0000
  {
  }

  lemma TailWord3(a: bv8, b: bv8, c: bv8)
    ensures Le32([a, b, c, 0x5a]) == a as bv32 | (b as bv32 << 8) | (c as bv32 << 16) | 0x5a000000
  {
  }

  /** The last partial word with its padding, as the switch statement builds it. */
  method LastWord(data: Octets) returns (w: bv32)
    ensures var i := |data| / 4 * 4; w == Le32(Padded(data)[i..i + 4])
  {
    var i := |data| / 4 * 4;
    var d := data[i..];
    PaddedLast(data, i);
    if |d| == 0 {
      w := 0x5a;
      TailWord0();
    } else if |d| == 1 {
      w := d[0] as bv32 | 0x5a00;
      TailWord1(d[0]);
    } else if |d| == 2 {
      w := d[0] as bv32 | (d[1] as bv32 << 8) | 0x5a0000;
      TailWord2(d[0], d[1]);
    } else {
      w := d[0] as bv32 | (d[1] as bv32 << 8) | (d[2] as bv32 << 16) | 0x5a000000;
      TailWord3(d[0], d[1], d[2]);
    }
  }

  method HalfStep(f: bv32 -> bv32, l: bv32, r: bv32) returns (l': bv32, r': bv32)
    ensures Pair(l', r') == Half(f, Pair(l, r))
  {
    r' := Xor32(r, f(l));
    l' := Plus(l, r');
  }

  /** l ^= w; michael_block(l, r): one more word of the message is done. */
  method MixWord(p: Pair, w: bv32, ghost ws: seq<bv32>, ghost k: nat) returns (q: Pair)
    requires k < |ws| && w == ws[k]
    ensures Fold(Mix, q, ws[k + 1..]) == Fold(Mix, p, ws[k..])
  {
    var l, r := Xor32(p.l, w), p.r;
    l, r := HalfStep(RotL17, l, r);
    l, r := HalfStep(XSwap, l, r);
    l, r := HalfStep(RotL3, l, r);
    l, r := HalfStep(RotR2, l, r);
    q := Pair(l, r);
    FoldNext(Mix, p, ws, k);
  }

  lemma FoldNext<P, W>(f: (P, W) -> P, p: P, ws: seq<W>, k: nat)
    requires k < |ws|
    ensures Fold(f, p, ws[k..]) == Fold(f, f(p, ws[k]), ws[k + 1..])
  {
    assert ws[k..][0] == ws[k] && ws[k..][1..] == ws[k + 1..];
  }

  method MixHeader(p: Pair, w0: bv32, w1: bv32, w2: bv32, w3: bv32, ghost ws: seq<bv32>) returns (q: Pair)
    requires |ws| >= 4 && ws[0] == w0 && ws[1] == w1 && ws[2] == w2 && ws[3] == w3
    ensures Fold(Mix, q, ws[4..]) == Fold(Mix, p, ws[0..])
  {
    q := MixWord(p, w0, ws, 0);
    q := MixWord(q, w1, ws, 1);
    q := MixWord(q, w2, ws, 2);
    q := MixWord(q, w3, ws, 3);
  }

  lemma HeaderWords(hdr: Octets, data: Octets)
    requires |hdr| == 16
    ensures var ws := Message(hdr, data);
      && |ws| == |data| / 4 + 6
      && ws[0] == Le32(hdr[..4]) && ws[1] == Le32(hdr[4..8]) && ws[2] == Le32(hdr[8..12]) && ws[3] == Le32(hdr[12..])
  {
    var m := hdr + Padded(data);
    WordsAt(m, 0);
    WordsAt(m, 1);
    WordsAt(m, 2);
    WordsAt(m, 3);
    assert m[0..4] == hdr[..4] && m[4..8] == hdr[4..8] && m[8..12] == hdr[8..12] && m[12..16] == hdr[12..];
  }

  lemma DataWord(hdr: Octets, data: Octets, i: nat)
    requires |hdr| == 16 && i < |data| / 4
    ensures i + 4 < |Message(hdr, data)| && Message(hdr, data)[i + 4] == Le32(data[4 * i..4 * i + 4])
  {
    var m := hdr + Padded(data);
    WordsAt(m, i + 4);
    assert m[4 * (i + 4)..4 * (i + 4) + 4] == data[4 * i..4 * i + 4];
  }

  lemma TailWords(hdr: Octets, data: Octets)
    requires |hdr| == 16
    ensures var ws, n := Message(hdr, data), |data| / 4;
      |ws| == n + 6 && ws[n + 4] == Le32(Padded(data)[4 * n..4 * n + 4]) && ws[n + 5] == 0
  {
    var m, p, n := hdr + Padded(data), Padded(data), |data| / 4;
    PaddedTail(data, 4 * n);
    WordsAt(m, n + 4);
    assert m[4 * n + 16..4 * n + 20] == p[4 * n..4 * n + 4];
    WordsAt(m, n + 5);
    ZeroWord(m[4 * n + 20..4 * n + 24]);
  }

  lemma ZeroWord(a: Octets)
    requires |a| == 4 && a[0] == 0 && a[1] == 0 && a[2] == 0 && a[3] == 0
    ensures Le32(a) == 0
  {
  }

  method MichaelMic(key: Octets, hdr: Octets, data: Octets) returns (mic: Octets)
    requires |key| == 8 && |hdr| == 16
    ensures mic == Mic(key, hdr, data)
  {
    ghost var ws := Message(hdr, data);
    HeaderWords(hdr, data);
    TailWords(hdr, data);
    var p := FromOctets(key);
    ghost var result := Fold(Mix, p, ws);
    assert ws[0..] == ws;
    p := MixHeader(p, Le32(hdr[..4]), Le32(hdr[4..8]), Le32(hdr[8..12]), Le32(hdr[12..]), ws);
    p := MixBlocks(p, hdr, data, ws);
    var w := LastWord(data);
    p := MixWord(p, w, ws, |data| / 4 + 4);
    p := MixWord(p, 0, ws, |data| / 4 + 5);
    assert ws[|data| / 4 + 6..] == [] && p == result;
    mic := PutLe32(p.l) + PutLe32(p.r);
  }

  /** 32-bit blocks of data */
  method MixBlocks(start: Pair, ghost hdr: Octets, data: Octets, ghost ws: seq<bv32>) returns (p: Pair)
    requires |hdr| == 16 && ws == Message(hdr, data) && |ws| == |data| / 4 + 6
    ensures Fold(Mix, p, ws[|data| / 4 + 4..]) == Fold(Mix, start, ws[4..])
  {
    p := start;
    var i := 0;
    while i < |data| / 4
      invariant 0 <= i <= |data| / 4
      invariant Fold(Mix, p, ws[i + 4..]) == Fold(Mix, start, ws[4..])
    {
      DataWord(hdr, data, i);
      p := MixWord(p, Le32(data[4 * i..4 * i + 4]), ws, i + 4);
      i := i + 1;
    }
  }

  // ---- Michael over a whole message, and test vectors of annex H of IEEE Std 802.11-2007

  function MessageCode(key: Octets, m: Octets): (mic: Octets)
    requires |key| == 8
    ensures |mic| == 8
  {
    ToOctets(Fold(Mix, FromOctets(key), Words(Padded(m))))
  }

  /** The code of a frame is that of its header followed by its data. */
  lemma MicIsMessageCode(key: Octets, hdr: Octets, data: Octets)
    requires |key| == 8 && |hdr| == 16
    ensures Mic(key, hdr, data) == MessageCode(key, hdr + data)
  {
    assert |hdr + data| % 4 == |data| % 4;
    assert hdr + Padded(data) == Padded(hdr + data);
  }

  lemma MixOf(l: bv32, r: bv32, w: bv32, a: Pair, b: Pair, c: Pair, d: Pair)
    requires Half(RotL17, Pair(Xor32(l, w), r)) == a && Half(XSwap, a) == b
    requires Half(RotL3, b) == c && Half(RotR2, c) == d
    ensures Mix(Pair(l, r), w) == d
  {
  }

  lemma {:induction false} FoldPath<P, W>(f: (P, W) -> P, ps: seq<P>, ws: seq<W>, n: nat)
    requires |ps| == |ws| + 1 && n <= |ws| && forall k :: 0 <= k < |ws| ==> f(ps[k], ws[k]) == ps[k + 1]
    ensures Fold(f, ps[n], ws[n..]) == ps[|ws|]
    decreases |ws| - n
  {
    if n < |ws| {
      FoldNext(f, ps[n], ws, n);
      FoldPath(f, ps, ws, n + 1);
    }
  }

  lemma WordsOfTwo(a: Octets, b: Octets)
    requires |a| == 4 && |b| == 4
    ensures Words(a + b) == [Le32(a), Le32(b)]
  {
    assert (a + b)[..4] == a && (a + b)[4..] == b && b[..4] == b && b[4..] == [];
  }

  lemma WordsOfThree(a: Octets, b: Octets, c: Octets)
    requires |a| == 4 && |b| == 4 && |c| == 4
    ensures Words(a + (b + c)) == [Le32(a), Le32(b), Le32(c)]
  {
    assert (a + (b + c))[..4] == a && (a + (b + c))[4..] == b + c;
    WordsOfTwo(b, c);
  }

  lemma EmptyWord0()
    ensures Mix(Pair(0x00000000, 0x00000000), 0x0000005a) == Pair(0xc000134d, 0xeaa1301e)
  {
    assert RotL17(0x0000005a) == 0x00b40000;
    assert Half(RotL17, Pair(0x0000005a, 0x00000000)) == Pair(0x00b4005a, 0x00b40000);
    assert XSwap(0x00b4005a) == 0xb4005a00;
    assert Half(XSwap, Pair(0x00b4005a, 0x00b40000)) == Pair(0xb5685a5a, 0xb4b45a00);
    assert RotL3(0xb5685a5a) == 0xab42d2d5;
    assert Half(RotL3, Pair(0xb5685a5a, 0xb4b45a00)) == Pair(0xd55ee32f, 0x1ff688d5);
    assert RotR2(0xd55ee32f) == 0xf557b8cb;
    assert Half(RotR2, Pair(0xd55ee32f, 0x1ff688d5)) == Pair(0xc000134d, 0xeaa1301e);
    assert Xor32(0x00000000, 0x0000005a) == 0x0000005a;
    MixOf(0x00000000, 0x00000000, 0x0000005a, Pair(0x00b4005a, 0x00b40000), Pair(0xb5685a5a, 0xb4b45a00),
          Pair(0xd55ee32f, 0x1ff688d5), Pair(0xc000134d, 0xeaa1301e));
  }

  lemma EmptyWord1()
    ensures Mix(Pair(0xc000134d, 0xeaa1301e), 0x00000000) == Pair(0x1c5c9282, 0xb830d1a1)
  {
    assert RotL17(0xc000134d) == 0x269b8000;
    assert Half(RotL17, Pair(0xc000134d, 0xeaa1301e)) == Pair(0x8c3ac36b, 0xcc3ab01e);
    assert XSwap(0x8c3ac36b) == 0x3a8c6bc3;
    assert Half(XSwap, Pair(0x8c3ac36b, 0xcc3ab01e)) == Pair(0x82f19f48, 0xf6b6dbdd);
    assert RotL3(0x82f19f48) == 0x178cfa44;
    assert Half(RotL3, Pair(0x82f19f48, 0xf6b6dbdd)) == Pair(0x642bc0e1, 0xe13a2199);
    assert RotR2(0x642bc0e1) == 0x590af038;
    assert Half(RotR2, Pair(0x642bc0e1, 0xe13a2199)) == Pair(0x1c5c9282, 0xb830d1a1);
    assert Xor32(0xc000134d, 0x00000000) == 0xc000134d;
    MixOf(0xc000134d, 0xeaa1301e, 0x00000000, Pair(0x8c3ac36b, 0xcc3ab01e), Pair(0x82f19f48, 0xf6b6dbdd),
          Pair(0x642bc0e1, 0xe13a2199), Pair(0x1c5c9282, 0xb830d1a1));
  }

  lemma EmptyWords()
    ensures Words(Padded([])) == [0x0000005a, 0x00000000]
  {
    var m: Octets := [];
    assert Padded(m) == [0x5a, 0x00, 0x00, 0x00] + [0x00, 0x00, 0x00, 0x00];
    WordsOfTwo([0x5a, 0x00, 0x00, 0x00], [0x00, 0x00, 0x00, 0x00]);
    assert Le32([0x5a, 0x00, 0x00, 0x00]) == 0x0000005a;
    assert Le32([0x00, 0x00, 0x00, 0x00]) == 0x00000000;
  }

  lemma EmptyOctets()
    ensures FromOctets([0x00, 0x00, 0x00, 0x00, 0x00, 0x00, 0x00, 0x00]) == Pair(0x00000000, 0x00000000)
    ensures ToOctets(Pair(0x1c5c9282, 0xb830d1a1)) == [0x82, 0x92, 0x5c, 0x1c, 0xa1, 0xd1, 0x30, 0xb8]
  {
    var k: Octets := [0x00, 0x00, 0x00, 0x00, 0x00, 0x00, 0x00, 0x00];
    assert k[..4] == [0x00, 0x00, 0x00, 0x00] && k[4..] == [0x00, 0x00, 0x00, 0x00];
  }

  lemma EmptyVector()
    ensures MessageCode([0x00, 0x00, 0x00, 0x00, 0x00, 0x00, 0x00, 0x00], []) ==
      [0x82, 0x92, 0x5c, 0x1c, 0xa1, 0xd1, 0x30, 0xb8]
  {
    EmptyOctets();
    EmptyWords();
    EmptyWord0();
    EmptyWord1();
    FoldPath(Mix, [Pair(0x00000000, 0x00000000), 
                   Pair(0xc000134d, 0xeaa1301e), 
                   Pair(0x1c5c9282, 0xb830d1a1)],
             [0x0000005a, 0x00000000], 0);
  }

  lemma MichaelWord0()
    ensures Mix(Pair(0x05105ed5, 0x86891210), 0x6863694d) == Pair(0xf4774c9a, 0xb4278a40)
  {
    assert RotL17(0x6d733798) == 0x6f30dae6;
    assert Half(RotL17, Pair(0x6d733798, 0x86891210)) == Pair(0x572d008e, 0xe9b9c8f6);
    assert XSwap(0x572d008e) == 0x2d578e00;
    assert Half(XSwap, Pair(0x572d008e, 0xe9b9c8f6)) == Pair(0x1c1b4784, 0xc4ee46f6);
    assert RotL3(0x1c1b4784) == 0xe0da3c20;
    assert Half(RotL3, Pair(0x1c1b4784, 0xc4ee46f6)) == Pair(0x404fc25a, 0x24347ad6);
    assert RotR2(0x404fc25a) == 0x9013f096;
    assert Half(RotR2, Pair(0x404fc25a, 0x24347ad6)) == Pair(0xf4774c9a, 0xb4278a40);
    assert Xor32(0x05105ed5, 0x6863694d) == 0x6d733798;
    MixOf(0x05105ed5, 0x86891210, 0x6863694d, Pair(0x572d008e, 0xe9b9c8f6), Pair(0x1c1b4784, 0xc4ee46f6),
          Pair(0x404fc25a, 0x24347ad6), Pair(0xf4774c9a, 0xb4278a40));
  }

  lemma MichaelWord1()
    ensures Mix(Pair(0xf4774c9a, 0xb4278a40), 0x5a6c6561) == Pair(0x4e304879, 0xaa360847)
  {
    assert RotL17(0xae1b29fb) == 0x53f75c36;
    assert Half(RotL17, Pair(0xae1b29fb, 0xb4278a40)) == Pair(0x95ec0071, 0xe7d0d676);
    assert XSwap(0x95ec0071) == 0xec957100;
    assert Half(XSwap, Pair(0x95ec0071, 0xe7d0d676)) == Pair(0xa131a7e7, 0x0b45a776);
    assert RotL3(0xa131a7e7) == 0x098d3f3d;
    assert Half(RotL3, Pair(0xa131a7e7, 0x0b45a776)) == Pair(0xa3fa4032, 0x02c8984b);
    assert RotR2(0xa3fa4032) == 0xa8fe900c;
    assert Half(RotR2, Pair(0xa3fa4032, 0x02c8984b)) == Pair(0x4e304879, 0xaa360847);
    assert Xor32(0xf4774c9a, 0x5a6c6561) == 0xae1b29fb;
    MixOf(0xf4774c9a, 0xb4278a40, 0x5a6c6561, Pair(0x95ec0071, 0xe7d0d676), Pair(0xa131a7e7, 0x0b45a776),
          Pair(0xa3fa4032, 0x02c8984b), Pair(0x4e304879, 0xaa360847));
  }

  lemma MichaelWord2()
    ensures Mix(Pair(0x4e304879, 0xaa360847), 0x00000000) == Pair(0x122b940a, 0x46a5ca4e)
  {
    assert RotL17(0x4e304879) == 0x90f29c60;
    assert Half(RotL17, Pair(0x4e304879, 0xaa360847)) == Pair(0x88f4dca0, 0x3ac49427);
    assert XSwap(0x88f4dca0) == 0xf488a0dc;
    assert Half(XSwap, Pair(0x88f4dca0, 0x3ac49427)) == Pair(0x5741119b, 0xce4c34fb);
    assert RotL3(0x5741119b) == 0xba088cda;
    assert Half(RotL3, Pair(0x5741119b, 0xce4c34fb)) == Pair(0xcb85c9bc, 0x7444b821);
    assert RotR2(0xcb85c9bc) == 0x32e1726f;
    assert Half(RotR2, Pair(0xcb85c9bc, 0x7444b821)) == Pair(0x122b940a, 0x46a5ca4e);
    assert Xor32(0x4e304879, 0x00000000) == 0x4e304879;
    MixOf(0x4e304879, 0xaa360847, 0x00000000, Pair(0x88f4dca0, 0x3ac49427), Pair(0x5741119b, 0xce4c34fb),
          Pair(0xcb85c9bc, 0x7444b821), Pair(0x122b940a, 0x46a5ca4e));
  }

  lemma MichaelWords()
    ensures Words(Padded([0x4d, 0x69, 0x63, 0x68, 0x61, 0x65, 0x6c])) == [0x6863694d, 0x5a6c6561, 0x00000000]
  {
    var m: Octets := [0x4d, 0x69, 0x63, 0x68, 0x61, 0x65, 0x6c];
    assert Padded(m) == [0x4d, 0x69, 0x63, 0x68] + ([0x61, 0x65, 0x6c, 0x5a] + [0x00, 0x00, 0x00, 0x00]);
    WordsOfThree([0x4d, 0x69, 0x63, 0x68], [0x61, 0x65, 0x6c, 0x5a], [0x00, 0x00, 0x00, 0x00]);
    assert Le32([0x4d, 0x69, 0x63, 0x68]) == 0x6863694d;
    assert Le32([0x61, 0x65, 0x6c, 0x5a]) == 0x5a6c6561;
    assert Le32([0x00, 0x00, 0x00, 0x00]) == 0x00000000;
  }

  lemma MichaelOctets()
    ensures FromOctets([0xd5, 0x5e, 0x10, 0x05, 0x10, 0x12, 0x89, 0x86]) == Pair(0x05105ed5, 0x86891210)
    ensures ToOctets(Pair(0x122b940a, 0x46a5ca4e)) == [0x0a, 0x94, 0x2b, 0x12, 0x4e, 0xca, 0xa5, 0x46]
  {
    var k: Octets := [0xd5, 0x5e, 0x10, 0x05, 0x10, 0x12, 0x89, 0x86];
    assert k[..4] == [0xd5, 0x5e, 0x10, 0x05] && k[4..] == [0x10, 0x12, 0x89, 0x86];
  }

  lemma MichaelVector()
    ensures MessageCode([0xd5, 0x5e, 0x10, 0x05, 0x10, 0x12, 0x89, 0x86], [0x4d, 0x69, 0x63, 0x68, 0x61, 0x65, 0x6c]) ==
      [0x0a, 0x94, 0x2b, 0x12, 0x4e, 0xca, 0xa5, 0x46]
  {
    MichaelOctets();
    MichaelWords();
    MichaelWord0();
    MichaelWord1();
    MichaelWord2();
    FoldPath(Mix, [Pair(0x05105ed5, 0x86891210), 
                   Pair(0xf4774c9a, 0xb4278a40), 
                   Pair(0x4e304879, 0xaa360847), 
                   Pair(0x122b940a, 0x46a5ca4e)],
             [0x6863694d, 0x5a6c6561, 0x00000000], 0);
  }
}
