/** Octet strings and the byte-order helpers of hostap's utils/common.h. */
module Octets {

  type Octets = seq<bv8>

  function Zeros(n: nat): (r: Octets)
    ensures |r| == n && forall k :: 0 <= k < n ==> r[k] == 0
  {
    seq(n, _ => 0)
  }

  function Xor(a: Octets, b: Octets): (r: Octets)
    requires |a| == |b|
    ensures |r| == |a|
    ensures forall k :: 0 <= k < |a| ==> r[k] == a[k] ^ b[k]
  {
    seq(|a|, k requires 0 <= k < |a| => a[k] ^ b[k])
  }

  lemma XorCancels(a: Octets, b: Octets)
    requires |a| == |b|
    ensures Xor(Xor(a, b), b) == a
  {
    forall k | 0 <= k < |a| ensures Xor(Xor(a, b), b)[k] == a[k] {
      assert a[k] ^ b[k] ^ b[k] == a[k];
    }
  }

  lemma SubSlice(s: Octets, a: nat, b: nat, c: nat, d: nat)
    requires c <= d && a + d <= b <= |s|
    ensures s[a..b][c..d] == s[a + c..a + d]
  {
    var x, y := s[a..b][c..d], s[a + c..a + d];
    forall k | 0 <= k < |x| ensures x[k] == y[k] {
      assert x[k] == s[a..b][c + k];
    }
  }

  // ---- Numbers in octets

  lemma NextOctetValue(x: bv8)
    ensures x + 1 == 0 <==> x as nat == 255
    ensures x + 1 != 0 ==> (x + 1) as nat == x as nat + 1
  {
  }

  lemma OctetOfValue(x: bv8)
    ensures (x as nat) as bv8 == x
  {
  }

  /** Every number below 256 is the value of an octet. */
  lemma {:induction false} OctetFor(v: nat) returns (x: bv8)
    requires v < 256
    ensures x as nat == v
  {
    if v == 0 {
      x := 0;
    } else {
      x := OctetFor(v - 1);
      NextOctetValue(x);
      x := x + 1;
    }
  }

  lemma OctetExact(v: nat)
    requires v < 256
    ensures (v as bv8) as nat == v
  {
    var x := OctetFor(v);
    OctetOfValue(x);
  }

  function Pow256(n: nat): (r: nat)
    ensures r >= 1
  {
    if n == 0 then 1 else 256 * Pow256(n - 1)
  }

  /** The low n octets of v, most significant first. */
  function BigEndian(v: nat, n: nat): (r: Octets)
    ensures |r| == n
  {
    if n == 0 then [] else BigEndian(v / 256, n - 1) + [(v % 256) as bv8]
  }

  lemma OctetInjective(v: nat, w: nat)
    requires v < 256 && w < 256 && v as bv8 == w as bv8
    ensures v == w
  {
    OctetExact(v);
    OctetExact(w);
  }

  lemma BigEndianSplit(v: nat, n: nat)
    requires n > 0
    ensures BigEndian(v, n)[..n - 1] == BigEndian(v / 256, n - 1) && BigEndian(v, n)[n - 1] == (v % 256) as bv8
  {
  }

  lemma QuotientFits(v: nat, n: nat)
    requires n > 0 && v < Pow256(n)
    ensures v / 256 < Pow256(n - 1)
  {
  }

  /** Numbers that fit are told apart by their octets. */
  lemma {:induction false} BigEndianInjective(v: nat, w: nat, n: nat)
    requires v < Pow256(n) && w < Pow256(n) && BigEndian(v, n) == BigEndian(w, n)
    ensures v == w
  {
    if n > 0 {
      BigEndianSplit(v, n);
      BigEndianSplit(w, n);
      OctetInjective(v % 256, w % 256);
      QuotientFits(v, n);
      QuotientFits(w, n);
      BigEndianInjective(v / 256, w / 256, n - 1);
    }
  }

  function Le16(a: Octets): bv16
    requires |a| == 2
  {
    ((a[1] as bv16) << 8) | a[0] as bv16
  }

  function PutLe16(v: bv16): (r: Octets)
    ensures |r| == 2
  {
    [(v & 0xff) as bv8, (v >> 8) as bv8]
  }

  lemma Le16Inverse(v: bv16, a: Octets)
    requires |a| == 2
    ensures Le16(PutLe16(v)) == v
    ensures PutLe16(Le16(a)) == a
  {
  }

  function Le32(a: Octets): bv32
    requires |a| == 4
  {
    ((a[3] as bv32) << 24) | ((a[2] as bv32) << 16) | ((a[1] as bv32) << 8) | a[0] as bv32
  }

  function PutLe32(v: bv32): (r: Octets)
    ensures |r| == 4
  {
    [(v & 0xff) as bv8, ((v >> 8) & 0xff) as bv8, ((v >> 16) & 0xff) as bv8, ((v >> 24) & 0xff) as bv8]
  }

  lemma Le32Inverse(v: bv32, a: Octets)
    requires |a| == 4
    ensures Le32(PutLe32(v)) == v
    ensures PutLe32(Le32(a)) == a
  {
  }
}

/** Octets as numbers. */
module OctetNumbers {

  type Octet = n: nat | n < 256
}
