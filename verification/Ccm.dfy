/**
 Counter with CBC-MAC, written from sections 2.2 to 2.5 of RFC 3610 for every pair of parameters
 M (octets in the authentication field) and L (octets in the length field).  The block cipher under
 its key is the parameter E.  Where a length or a counter does not fit in L octets, its low octets
 are used, as a 16-bit store does.
 */
module Ccm {
  import opened Octets
  import opened Wrappers

  type Block = b: Octets | |b| == 16 witness [0, 0, 0, 0, 0, 0, 0, 0, 0, 0, 0, 0, 0, 0, 0, 0]
  type Cipher = Block -> Block

  datatype Params = Params(m: nat, l: nat) {
    predicate Valid() { 4 <= m <= 16 && m % 2 == 0 && 2 <= l <= 8 }
  }

  predicate ValidNonce(p: Params, nonce: Octets) {
    p.Valid() && |nonce| == 15 - p.l
  }

  // ---- Section 2.2: authentication

  function Pad(s: Octets): (r: Octets)
    ensures |r| % 16 == 0 && s <= r && |r| < |s| + 16
  {
    s + Zeros((16 - |s| % 16) % 16)
  }

  /** B_0, with the Adata flag set: the additional data is never empty here. */
  function B0(p: Params, nonce: Octets, mlen: nat): Block
    requires ValidNonce(p, nonce)
  {
    [(64 + 8 * ((p.m - 2) / 2) + (p.l - 1)) as bv8] + nonce + BigEndian(mlen, p.l)
  }

  /** X_{i+1} := E(K, X_i XOR B_i), over the blocks of bs. */
  function CbcMac(E: Cipher, x: Block, bs: Octets): Block
    requires |bs| % 16 == 0
    decreases |bs|
  {
    if bs == [] then x else CbcMac(E, E(Xor(x, bs[..16])), bs[16..])
  }

  lemma {:induction false} CbcMacConcat(E: Cipher, x: Block, a: Octets, b: Octets)
    requires |a| % 16 == 0 && |b| % 16 == 0
    ensures CbcMac(E, x, a + b) == CbcMac(E, CbcMac(E, x, a), b)
    decreases |a|
  {
    if a == [] {
      assert a + b == b;
    } else {
      assert (a + b)[..16] == a[..16] && (a + b)[16..] == a[16..] + b;
      CbcMacConcat(E, E(Xor(x, a[..16])), a[16..], b);
    }
  }

  /** B_1, B_2, ...: the additional data with its length, then the message, each padded with zeros. */
  function MacBlocks(aad: Octets, m: Octets): (r: Octets)
    ensures |r| % 16 == 0
  {
    var a, b := Pad(BigEndian(|aad|, 2) + aad), Pad(m);
    WholeBlocks(|a|, |b|);
    a + b
  }

  lemma WholeBlocks(n: nat, k: nat)
    requires n % 16 == 0 && k % 16 == 0
    ensures (n + k) % 16 == 0
  {
  }

  function Tag(E: Cipher, p: Params, nonce: Octets, aad: Octets, m: Octets): (t: Octets)
    requires ValidNonce(p, nonce)
    ensures |t| == p.m
  {
    CbcMac(E, E(B0(p, nonce, |m|)), MacBlocks(aad, m))[..p.m]
  }

  // ---- Section 2.3: encryption

  /** A_i */
  function A(p: Params, nonce: Octets, i: nat): Block
    requires ValidNonce(p, nonce)
  {
    [(p.l - 1) as bv8] + nonce + BigEndian(i, p.l)
  }

  /** S_i := E(K, A_i) */
  function KeyBlocks(E: Cipher, p: Params, nonce: Octets): nat -> Block
    requires ValidNonce(p, nonce)
  {
    (i: nat) => E(A(p, nonce, i))
  }

  /** The message XORed with the first octets of S_1, S_2, S_3, ... */
  function XorStream(S: nat -> Block, m: Octets): (c: Octets)
    ensures |c| == |m|
  {
    seq(|m|, k requires 0 <= k < |m| => m[k] ^ S(k / 16 + 1)[k % 16])
  }

  function Ctr(E: Cipher, p: Params, nonce: Octets, m: Octets): (c: Octets)
    requires ValidNonce(p, nonce)
    ensures |c| == |m|
  {
    XorStream(KeyBlocks(E, p, nonce), m)
  }

  /** T XOR the first M octets of S_0 */
  function MaskTag(E: Cipher, p: Params, nonce: Octets, t: Octets): (u: Octets)
    requires ValidNonce(p, nonce) && |t| == p.m
    ensures |u| == p.m
  {
    Xor(t, E(A(p, nonce, 0))[..p.m])
  }

  function Encrypt(E: Cipher, p: Params, nonce: Octets, aad: Octets, m: Octets): (c: Octets)
    requires ValidNonce(p, nonce)
    ensures |c| == |m| + p.m
  {
    Ctr(E, p, nonce, m) + MaskTag(E, p, nonce, Tag(E, p, nonce, aad, m))
  }

  // ---- Section 2.5: decryption and authentication checking

  function Decrypt(E: Cipher, p: Params, nonce: Octets, aad: Octets, c: Octets): Option<Octets>
    requires ValidNonce(p, nonce)
  {
    if |c| < p.m then None else
    var m := Ctr(E, p, nonce, c[..|c| - p.m]);
    if MaskTag(E, p, nonce, c[|c| - p.m..]) == Tag(E, p, nonce, aad, m) then Some(m) else None
  }

  lemma XorStreamTwice(S: nat -> Block, m: Octets)
    ensures XorStream(S, XorStream(S, m)) == m
  {
    var c := XorStream(S, m);
    forall k | 0 <= k < |m| ensures XorStream(S, c)[k] == m[k] {
      var s := S(k / 16 + 1)[k % 16];
      assert m[k] ^ s ^ s == m[k];
    }
  }

  lemma CtrInvolution(E: Cipher, p: Params, nonce: Octets, m: Octets)
    requires ValidNonce(p, nonce)
    ensures Ctr(E, p, nonce, Ctr(E, p, nonce, m)) == m
  {
    XorStreamTwice(KeyBlocks(E, p, nonce), m);
  }

  /** Decryption accepts exactly the encryptions, and returns what was encrypted. */
  lemma DecryptInvertsEncrypt(E: Cipher, p: Params, nonce: Octets, aad: Octets, c: Octets, m: Octets)
    requires ValidNonce(p, nonce)
    ensures Decrypt(E, p, nonce, aad, c) == Some(m) <==> c == Encrypt(E, p, nonce, aad, m)
  {
    var s0 := E(A(p, nonce, 0))[..p.m];
    if |c| >= p.m {
      var body, u := c[..|c| - p.m], c[|c| - p.m..];
      CtrInvolution(E, p, nonce, body);
      CtrInvolution(E, p, nonce, m);
      XorCancels(u, s0);
      XorCancels(Tag(E, p, nonce, aad, m), s0);
      if c == Encrypt(E, p, nonce, aad, m) {
        assert body == Ctr(E, p, nonce, m) && u == MaskTag(E, p, nonce, Tag(E, p, nonce, aad, m));
      }
    }
  }

  // ---- No two uses of the cipher for one message coincide

  lemma FirstOctet(x: bv8, a: Octets, b: Octets)
    ensures ([x] + a + b)[0] == x
  {
  }

  ghost predicate Injective(E: Cipher) {
    forall x: Block, y: Block :: E(x) == E(y) ==> x == y
  }

  /** Block k of the key stream, as it shows in the encryption of zeros. */
  function StreamSeen(E: Cipher, p: Params, nonce: Octets, n: nat, k: nat): (s: Octets)
    requires ValidNonce(p, nonce) && k < n
    ensures |s| == 16
  {
    Ctr(E, p, nonce, Zeros(16 * n))[16 * k..16 * k + 16]
  }

  lemma XorZero(x: bv8)
    ensures 0 ^ x == x
  {
  }

  /** Flags L', the nonce and a number. */
  function CounterInput(p: Params, nonce: Octets, i: nat): Block
    requires ValidNonce(p, nonce)
  {
    [(p.l - 1) as bv8] + nonce + BigEndian(i, p.l)
  }

  lemma StreamOctet(S: nat -> Block, n: nat, k: nat, t: nat)
    requires k < n && t < 16
    ensures XorStream(S, Zeros(16 * n))[16 * k + t] == S(k + 1)[t]
  {
    var i := 16 * k + t;
    assert i / 16 == k && i % 16 == t;
    XorZero(S(k + 1)[t]);
  }

  lemma StreamBlock(S: nat -> Block, n: nat, k: nat)
    requires k < n
    ensures XorStream(S, Zeros(16 * n))[16 * k..16 * k + 16] == S(k + 1)
  {
    var part := XorStream(S, Zeros(16 * n))[16 * k..16 * k + 16];
    forall t | 0 <= t < 16 ensures part[t] == S(k + 1)[t] {
      StreamOctet(S, n, k, t);
    }
  }

  /** It is the cipher applied to the flags, the nonce and the number of the block, counted from 1. */
  lemma StreamSeenIs(E: Cipher, p: Params, nonce: Octets, n: nat, k: nat)
    requires ValidNonce(p, nonce) && k < n
    ensures StreamSeen(E, p, nonce, n, k) == E(CounterInput(p, nonce, k + 1))
  {
    StreamBlock(KeyBlocks(E, p, nonce), n, k);
    CounterBlockIs(p, nonce, k + 1);
  }

  lemma CounterBlockIs(p: Params, nonce: Octets, i: nat)
    requires ValidNonce(p, nonce)
    ensures A(p, nonce, i) == CounterInput(p, nonce, i)
  {
  }

  /** Counters that fit in L octets have different blocks. */
  lemma CounterBlocksDistinct(p: Params, nonce: Octets, i: nat, j: nat)
    requires ValidNonce(p, nonce) && i < Pow256(p.l) && j < Pow256(p.l)
    requires CounterInput(p, nonce, i) == CounterInput(p, nonce, j)
    ensures i == j
  {
    Suffix([(p.l - 1) as bv8] + nonce, BigEndian(i, p.l), BigEndian(j, p.l));
    BigEndianInjective(i, j, p.l);
  }

  lemma Suffix(a: Octets, b: Octets, c: Octets)
    requires a + b == a + c
    ensures b == c
  {
    assert (a + b)[|a|..] == b && (a + c)[|a|..] == c;
  }

  /** The flags keep counter blocks and first authentication blocks apart, whatever the nonces. */
  lemma CounterBlockIsNotB0(p: Params, nonce: Octets, nonce': Octets, i: nat, mlen: nat)
    requires ValidNonce(p, nonce) && ValidNonce(p, nonce')
    ensures CounterInput(p, nonce, i) != B0(p, nonce', mlen)
  {
    var f, g := 64 + 8 * ((p.m - 2) / 2) + (p.l - 1), p.l - 1;
    FlagsDiffer(f, g);
    FirstOctet(f as bv8, nonce', BigEndian(mlen, p.l));
    FirstOctet(g as bv8, nonce, BigEndian(i, p.l));
  }

  lemma FlagsDiffer(f: nat, g: nat)
    requires 64 <= f < 256 && g < 64
    ensures f as bv8 != g as bv8
  {
    if f as bv8 == g as bv8 {
      OctetInjective(f, g);
    }
  }

  lemma CipherDistinct(E: Cipher, p: Params, nonce: Octets, i: nat, j: nat)
    requires ValidNonce(p, nonce) && Injective(E) && i < Pow256(p.l) && j < Pow256(p.l) && i != j
    ensures E(CounterInput(p, nonce, i)) != E(CounterInput(p, nonce, j))
  {
    if CounterInput(p, nonce, i) == CounterInput(p, nonce, j) {
      CounterBlocksDistinct(p, nonce, i, j);
    }
  }

  lemma SeenDistinct(E: Cipher, p: Params, nonce: Octets, n: nat, j: nat, k: nat)
    requires ValidNonce(p, nonce) && j < n && k < n
    requires E(CounterInput(p, nonce, j + 1)) != E(CounterInput(p, nonce, k + 1))
    ensures StreamSeen(E, p, nonce, n, j) != StreamSeen(E, p, nonce, n, k)
  {
    StreamSeenIs(E, p, nonce, n, j);
    StreamSeenIs(E, p, nonce, n, k);
  }

  /** For a cipher, no two blocks of a message are enciphered alike. */
  lemma StreamBlocksDistinct(E: Cipher, p: Params, nonce: Octets, n: nat, j: nat, k: nat)
    requires ValidNonce(p, nonce) && Injective(E) && n < Pow256(p.l) && j < k < n
    ensures StreamSeen(E, p, nonce, n, j) != StreamSeen(E, p, nonce, n, k)
  {
    CipherDistinct(E, p, nonce, j + 1, k + 1);
    SeenDistinct(E, p, nonce, n, j, k);
  }

  lemma TagMaskIs(E: Cipher, p: Params, nonce: Octets)
    requires ValidNonce(p, nonce)
    ensures MaskTag(E, p, nonce, Zeros(p.m)) == E(CounterInput(p, nonce, 0))[..p.m]
  {
    XorZeros(E(A(p, nonce, 0))[..p.m]);
  }

  lemma MaskDistinct(E: Cipher, p: Params, nonce: Octets, n: nat, k: nat)
    requires ValidNonce(p, nonce) && p.m == 16 && k < n
    requires E(CounterInput(p, nonce, 0)) != E(CounterInput(p, nonce, k + 1))
    ensures MaskTag(E, p, nonce, Zeros(p.m)) != StreamSeen(E, p, nonce, n, k)
  {
    TagMaskIs(E, p, nonce);
    StreamSeenIs(E, p, nonce, n, k);
  }

  /** Nor is one enciphered with the block that masks the tag, seen whole where M is 16. */
  lemma TagMaskIsNoStreamBlock(E: Cipher, p: Params, nonce: Octets, n: nat, k: nat)
    requires ValidNonce(p, nonce) && Injective(E) && p.m == 16 && n < Pow256(p.l) && k < n
    ensures MaskTag(E, p, nonce, Zeros(p.m)) != StreamSeen(E, p, nonce, n, k)
  {
    CipherDistinct(E, p, nonce, 0, k + 1);
    MaskDistinct(E, p, nonce, n, k);
  }

  lemma XorZeros(s: Octets)
    ensures Xor(Zeros(|s|), s) == s
  {
    forall k | 0 <= k < |s| ensures Xor(Zeros(|s|), s)[k] == s[k] {
      XorZero(s[k]);
    }
  }

  // ---- The authenticated blocks determine what is authenticated

  function Authenticated(p: Params, nonce: Octets, aad: Octets, m: Octets): (bs: Octets)
    requires ValidNonce(p, nonce)
  {
    B0(p, nonce, |m|) + MacBlocks(aad, m)
  }

  lemma PadPrefix(s: Octets, t: Octets, rest: Octets, rest': Octets)
    requires |s| == |t| && Pad(s) + rest == Pad(t) + rest'
    ensures s == t && rest == rest'
  {
    var a, b := Pad(s) + rest, Pad(t) + rest';
    assert a[..|s|] == s && b[..|t|] == t;
    assert a[|Pad(s)|..] == rest && b[|Pad(t)|..] == rest';
  }

  lemma SplitB0(p: Params, nonce: Octets, mlen: nat, rest: Octets)
    requires ValidNonce(p, nonce)
    ensures var bs := B0(p, nonce, mlen) + rest;
      bs[1..16 - p.l] == nonce && bs[16 - p.l..16] == BigEndian(mlen, p.l) && bs[16..] == rest
  {
    var b := B0(p, nonce, mlen);
    assert b[1..16 - p.l] == nonce && b[16 - p.l..] == BigEndian(mlen, p.l);
  }

  /** Different nonces, additional data or messages give different blocks, as far as their lengths fit. */
  lemma AuthenticatedInjective(p: Params, nonce: Octets, aad: Octets, m: Octets, nonce': Octets, aad': Octets, m': Octets)
    requires ValidNonce(p, nonce) && ValidNonce(p, nonce')
    requires |m| < Pow256(p.l) && |m'| < Pow256(p.l) && |aad| < Pow256(2) && |aad'| < Pow256(2)
    requires Authenticated(p, nonce, aad, m) == Authenticated(p, nonce', aad', m')
    ensures nonce == nonce' && aad == aad' && m == m'
  {
    SplitB0(p, nonce, |m|, MacBlocks(aad, m));
    SplitB0(p, nonce', |m'|, MacBlocks(aad', m'));
    BigEndianInjective(|m|, |m'|, p.l);
    MacBlocksInjective(aad, m, aad', m');
  }

  lemma MacBlocksInjective(aad: Octets, m: Octets, aad': Octets, m': Octets)
    requires |m| == |m'| && |aad| < Pow256(2) && |aad'| < Pow256(2) && MacBlocks(aad, m) == MacBlocks(aad', m')
    ensures aad == aad' && m == m'
  {
    var x, y := BigEndian(|aad|, 2) + aad, BigEndian(|aad'|, 2) + aad';
    LengthFirst(aad, Pad(m));
    LengthFirst(aad', Pad(m'));
    BigEndianInjective(|aad|, |aad'|, 2);
    PadPrefix(x, y, Pad(m), Pad(m'));
    assert x[2..] == aad && y[2..] == aad';
    assert Pad(m) + [] == Pad(m) && Pad(m') + [] == Pad(m');
    PadPrefix(m, m', [], []);
  }

  lemma FirstPart(n: Octets, a: Octets, rest: Octets)
    ensures (Pad(n + a) + rest)[..|n|] == n
  {
    assert (n + a)[..|n|] == n;
    assert Pad(n + a)[..|n|] == (n + a)[..|n|];
  }

  lemma LengthFirst(aad: Octets, rest: Octets)
    ensures (Pad(BigEndian(|aad|, 2) + aad) + rest)[..2] == BigEndian(|aad|, 2)
  {
    FirstPart(BigEndian(|aad|, 2), aad, rest);
  }
}
