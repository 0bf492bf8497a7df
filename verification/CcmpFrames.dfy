/** ccmp_aad_nonce, ccmp_encrypt and ccmp_decrypt as they work on their buffers, proved against CCM. */
module CcmpFrames {
  import opened Octets
  import opened Ieee80211
  import opened Ccm
  import opened Wrappers
  import opened Ccmp

  // ---- Buffer primitives

  method MemCpy(dst: array<bv8>, d: nat, src: Octets)
    requires d + |src| <= dst.Length
    modifies dst
    ensures dst[..] == old(dst[..d]) + src + old(dst[d + |src|..])
  {
    forall k | 0 <= k < |src| {
      dst[d + k] := src[k];
    }
  }

  /** aes_encrypt: source and destination may be the same block. */
  method AesEncrypt(E: Cipher, src: array<bv8>, dst: array<bv8>, d: nat)
    requires src.Length == 16 && d + 16 <= dst.Length
    modifies dst
    ensures dst[..] == old(dst[..d]) + E(old(src[..])) + old(dst[d + 16..])
  {
    MemCpy(dst, d, E(src[..]));
  }

  /** xor_aes_block */
  method XorAesBlock(dst: array<bv8>, d: nat, src: Octets)
    requires |src| == 16 && d + 16 <= dst.Length
    modifies dst
    ensures dst[..] == old(dst[..d]) + Xor(old(dst[d..d + 16]), src) + old(dst[d + 16..])
  {
    forall k | 0 <= k < 16 {
      dst[d + k] := dst[d + k] ^ src[k];
    }
  }

  method PutBe16(dst: array<bv8>, d: nat, v: nat)
    requires d + 2 <= dst.Length
    modifies dst
    ensures dst[..] == old(dst[..d]) + BigEndian(v, 2) + old(dst[d + 2..])
  {
    assert BigEndian(v, 2) == [((v / 256) % 256) as bv8, (v % 256) as bv8];
    dst[d] := ((v / 256) % 256) as bv8;
    dst[d + 1] := (v % 256) as bv8;
  }

  // ---- CTR: crypt = msg XOR (S_1 | S_2 | ... | S_n)

  /** The key stream blocks of a frame. */
  function Stream(E: Cipher, nonce: Octets): nat -> Block
    requires |nonce| == 13
  {
    KeyBlocks(E, CCMP_PARAMS, nonce)
  }

  /** A counter block with the flags and the nonce in place. */
  ghost predicate HoldsCounter(a: array<bv8>, nonce: Octets)
    reads a
  {
    a.Length == 16 && |nonce| == 13 && a[0] == 1 && a[1..14] == nonce
  }

  lemma CounterBlock(nonce: Octets, i: nat)
    requires |nonce| == 13
    ensures A(CCMP_PARAMS, nonce, i) == [1] + nonce + BigEndian(i, 2)
  {
  }

  method SetCounter(a: array<bv8>, ghost nonce: Octets, i: nat)
    requires HoldsCounter(a, nonce)
    modifies a
    ensures HoldsCounter(a, nonce) && a[..] == [1] + nonce + BigEndian(i, 2)
  {
    ghost var head := a[..14];
    assert head == [1] + a[1..14];
    PutBe16(a, 14, i);
    assert a[..14] == head;
  }

  /** S_i */
  method StreamBlock(E: Cipher, ghost nonce: Octets, a: array<bv8>, i: nat, ghost S: nat -> Block) returns (s: Block)
    requires HoldsCounter(a, nonce) && S == Stream(E, nonce)
    modifies a
    ensures HoldsCounter(a, nonce) && s == S(i)
  {
    SetCounter(a, nonce, i);
    CounterBlock(nonce, i);
    s := E(a[..]);
  }

  /** dst holds the first n octets of the transformed message. */
  ghost predicate CtrDone(S: nat -> Block, msg: Octets, dst: Octets, n: nat)
    requires n <= |msg| && n <= |dst|
  {
    dst[..n] == XorStream(S, msg)[..n]
  }

  lemma StreamOctet(S: nat -> Block, msg: Octets, i: nat, t: nat)
    requires i >= 1 && t < 16 && 16 * (i - 1) + t < |msg|
    ensures var k := 16 * (i - 1) + t; XorStream(S, msg)[k] == S(i)[t] ^ msg[k]
  {
    var k := 16 * (i - 1) + t;
    assert k / 16 == i - 1 && k % 16 == t;
    XorSwap(msg[k], S(i)[t]);
  }

  lemma XorSwap(x: bv8, y: bv8)
    ensures x ^ y == y ^ x
  {
  }

  lemma CtrExtend(S: nat -> Block, msg: Octets, before: Octets, after: Octets, i: nat, len: nat)
    requires i >= 1 && len <= 16
    requires var p := 16 * (i - 1); p + len <= |msg| && p + len <= |after| && p <= |before|
    requires var p := 16 * (i - 1);
      && CtrDone(S, msg, before, p)
      && after[..p] == before[..p]
      && after[p..p + len] == Xor(S(i)[..len], msg[p..p + len])
    ensures CtrDone(S, msg, after, 16 * (i - 1) + len)
  {
    var p := 16 * (i - 1);
    var c := XorStream(S, msg);
    StreamPart(S, msg, i, len);
    assert after[..p + len] == after[..p] + after[p..p + len] && c[..p + len] == c[..p] + c[p..p + len];
  }

  lemma StreamPart(S: nat -> Block, msg: Octets, i: nat, len: nat)
    requires i >= 1 && len <= 16 && 16 * (i - 1) + len <= |msg|
    ensures var p := 16 * (i - 1); XorStream(S, msg)[p..p + len] == Xor(S(i)[..len], msg[p..p + len])
  {
    var p := 16 * (i - 1);
    var l, r := XorStream(S, msg)[p..p + len], Xor(S(i)[..len], msg[p..p + len]);
    forall t | 0 <= t < len ensures l[t] == r[t] {
      StreamOctet(S, msg, i, t);
    }
  }

  method CtrBlock(E: Cipher, ghost nonce: Octets, a: array<bv8>, i: nat, msg: Octets, out: array<bv8>,
      d: nat, ghost S: nat -> Block)
    requires HoldsCounter(a, nonce) && S == Stream(E, nonce)
    requires a != out && d + 16 <= out.Length && |msg| == 16
    modifies a, out
    ensures HoldsCounter(a, nonce)
    ensures out[..d] == old(out[..d]) && out[d..d + 16] == Xor(S(i), msg)
  {
    var s := StreamBlock(E, nonce, a, i, S);
    MemCpy(out, d, s);
    assert out[d..d + 16] == s && out[..d] == old(out[..d]);
    XorAesBlock(out, d, msg);
  }

  /** The ragged last block: a whole key stream block is stored, its first octets are used. */
  method CtrTail(E: Cipher, ghost nonce: Octets, a: array<bv8>, i: nat, msg: Octets, out: array<bv8>,
      d: nat, ghost S: nat -> Block)
    requires HoldsCounter(a, nonce) && S == Stream(E, nonce)
    requires a != out && d + 16 <= out.Length && |msg| < 16
    modifies a, out
    ensures HoldsCounter(a, nonce)
    ensures out[..d] == old(out[..d])
    ensures out[d..d + |msg|] == Xor(S(i)[..|msg|], msg)
  {
    var s := StreamBlock(E, nonce, a, i, S);
    MemCpy(out, d, s);
    assert out[d..d + 16] == s && out[..d] == old(out[..d]);
    XorOctets(out, d, msg, s);
  }

  method XorOctets(out: array<bv8>, d: nat, msg: Octets, ghost s: Block)
    requires |msg| < 16 && d + 16 <= out.Length && out[d..d + 16] == s
    modifies out
    ensures out[..d] == old(out[..d])
    ensures out[d..d + |msg|] == Xor(s[..|msg|], msg)
  {
    assert forall t :: 0 <= t < 16 ==> s[t] == out[d + t];
    var k := 0;
    while k < |msg|
      invariant 0 <= k <= |msg|
      invariant out[..d] == old(out[..d])
      invariant forall t :: 0 <= t < k ==> out[d + t] == s[t] ^ msg[t]
      invariant forall t :: k <= t < 16 ==> out[d + t] == s[t]
    {
      out[d + k] := out[d + k] ^ msg[k];
      k := k + 1;
    }
  }

  /** One more block, or the ragged last one, of the message is done. */
  method CtrTurn(E: Cipher, ghost nonce: Octets, a: array<bv8>, i: nat, len: nat, msg: Octets,
      out: array<bv8>, o: nat, ghost S: nat -> Block)
    requires HoldsCounter(a, nonce) && S == Stream(E, nonce)
    requires a != out && o + |msg| + 16 <= out.Length && i >= 1 && len <= 16 && 16 * (i - 1) + len <= |msg|
    requires CtrDone(S, msg, out[o..], 16 * (i - 1))
    modifies a, out
    ensures HoldsCounter(a, nonce) && out[..o] == old(out[..o])
    ensures CtrDone(S, msg, out[o..], 16 * (i - 1) + len)
  {
    var p := 16 * (i - 1);
    ghost var before := out[o..];
    ghost var kept := out[..o + p];
    if len == 16 {
      CtrBlock(E, nonce, a, i, msg[p..p + 16], out, o + p, S);
    } else {
      CtrTail(E, nonce, a, i, msg[p..p + len], out, o + p, S);
    }
    Behind(out[..], o, p, len, kept, before);
    CtrExtend(S, msg, before, out[o..], i, len);
  }

  lemma Behind(s: Octets, o: nat, p: nat, len: nat, kept: Octets, before: Octets)
    requires o + p + len <= |s| && s[..o + p] == kept && p <= |before| && |kept| == o + p && kept[o..] == before[..p]
    ensures s[..o] == kept[..o] && s[o..][..p] == before[..p] && s[o..][p..p + len] == s[o + p..o + p + len]
  {
    assert s[..o + p][..o] == s[..o];
    assert s[..o + p][o..] == s[o..][..p];
  }

  method CtrLoop(E: Cipher, ghost nonce: Octets, a: array<bv8>, msg: Octets, out: array<bv8>, o: nat)
    requires HoldsCounter(a, nonce) && a != out && o + |msg| + 16 <= out.Length
    modifies a, out
    ensures HoldsCounter(a, nonce)
    ensures out[..o] == old(out[..o])
    ensures out[o..o + |msg|] == Ctr(E, CCMP_PARAMS, nonce, msg)
  {
    ghost var S := Stream(E, nonce);
    var last := |msg| % 16;
    var i := 1;
    while i <= |msg| / 16
      invariant 1 <= i <= |msg| / 16 + 1
      invariant HoldsCounter(a, nonce) && out[..o] == old(out[..o])
      invariant CtrDone(S, msg, out[o..], 16 * (i - 1))
    {
      CtrTurn(E, nonce, a, i, 16, msg, out, o, S);
      i := i + 1;
    }
    if last != 0 {
      CtrTurn(E, nonce, a, i, last, msg, out, o, S);
    }
    AllDone(S, msg, out[..], o);
  }

  lemma AllDone(S: nat -> Block, msg: Octets, s: Octets, o: nat)
    requires o + |msg| <= |s| && CtrDone(S, msg, s[o..], |msg|)
    ensures s[o..o + |msg|] == XorStream(S, msg)
  {
    assert s[o..][..|msg|] == s[o..o + |msg|];
    assert XorStream(S, msg)[..|msg|] == XorStream(S, msg);
  }

  // ---- CBC-MAC over the message

  /** Octets past the end of the message are XORed with zeros. */
  lemma XorPadded(x: Block, m: Octets, p: Block)
    requires |m| <= 16 && p[..|m|] == m && forall k :: |m| <= k < 16 ==> p[k] == 0
    ensures Xor(x, p) == Xor(x[..|m|], m) + x[|m|..]
  {
    var l, r := Xor(x, p), Xor(x[..|m|], m) + x[|m|..];
    forall k | 0 <= k < 16 ensures l[k] == r[k] {
      if k < |m| {
        assert p[k] == p[..|m|][k];
      } else {
        XorZero(x[k]);
      }
    }
  }

  lemma XorZero(x: bv8)
    ensures x ^ 0 == x
  {
  }

  lemma PadLong(m: Octets)
    requires |m| >= 16
    ensures Pad(m)[16..] == Pad(m[16..]) && Pad(m)[..16] == m[..16]
  {
    assert (|m| - 16) % 16 == |m| % 16;
  }

  lemma PadShort(m: Octets)
    requires 0 < |m| < 16
    ensures Pad(m) == m + Zeros(16 - |m|) && Pad([]) == []
  {
  }

  lemma PadFirst(m: Octets, n: nat)
    requires m != [] && n == (if |m| < 16 then |m| else 16)
    ensures var p := Pad(m);
      |p| >= 16 && p[16..] == Pad(m[n..]) && p[..16][..n] == m[..n] && forall k :: n <= k < 16 ==> p[..16][k] == 0
  {
    if |m| < 16 {
      PadShort(m);
      assert m[n..] == [] && m[..n] == m;
    } else {
      PadLong(m);
    }
  }

  lemma MacStep(E: Cipher, x: Block, m: Octets, n: nat)
    requires m != [] && n == (if |m| < 16 then |m| else 16)
    ensures CbcMac(E, x, Pad(m)) == CbcMac(E, E(Xor(x[..n], m[..n]) + x[n..]), Pad(m[n..]))
  {
    PadFirst(m, n);
    XorPadded(x, m[..n], Pad(m)[..16]);
  }

  /** XOR the first octets of x with m in place. */
  method XorInto(x: array<bv8>, m: Octets)
    requires |m| <= x.Length
    modifies x
    ensures x[..] == Xor(old(x[..|m|]), m) + old(x[|m|..])
  {
    var i := 0;
    while i < |m|
      invariant 0 <= i <= |m|
      invariant forall k :: 0 <= k < i ==> x[k] == old(x[k]) ^ m[k]
      invariant forall k :: i <= k < x.Length ==> x[k] == old(x[k])
    {
      x[i] := x[i] ^ m[i];
      i := i + 1;
    }
  }

  lemma MacStepAt(E: Cipher, x: Block, m: Octets, p: nat, n: nat)
    requires p < |m| && n == (if |m| - p < 16 then |m| - p else 16)
    ensures CbcMac(E, x, Pad(m[p..])) == CbcMac(E, E(Xor(x[..n], m[p..p + n]) + x[n..]), Pad(m[p + n..]))
  {
    MacStep(E, x, m[p..], n);
    assert m[p..][..n] == m[p..p + n] && m[p..][n..] == m[p + n..];
  }

  lemma MacEnd(E: Cipher, x: Block, m: Octets)
    ensures CbcMac(E, x, Pad(m[|m|..])) == x
  {
    assert Pad(m[|m|..]) == [];
  }

  method MacBlock(E: Cipher, x: array<bv8>, m: Octets)
    requires x.Length == 16 && |m| <= 16
    modifies x
    ensures x[..] == E(Xor(old(x[..])[..|m|], m) + old(x[..])[|m|..])
  {
    XorInto(x, m);
    AesEncrypt(E, x, x, 0);
    assert old(x[..])[..|m|] == old(x[..|m|]) && old(x[..])[|m|..] == old(x[|m|..]);
  }

  method MacLoop(E: Cipher, x: array<bv8>, m: Octets)
    requires x.Length == 16
    modifies x
    ensures x[..] == CbcMac(E, old(x[..]), Pad(m))
  {
    var last := |m| % 16;
    var i, pos := 0, 0;
    ghost var mac := CbcMac(E, x[..], Pad(m));
    assert m[0..] == m;
    while i < |m| / 16
      invariant 0 <= i <= |m| / 16 && pos == 16 * i
      invariant CbcMac(E, x[..], Pad(m[pos..])) == mac
    {
      MacStepAt(E, x[..], m, pos, 16);
      MacBlock(E, x, m[pos..pos + 16]);
      pos := pos + 16;
      i := i + 1;
    }
    assert pos + last == |m|;
    if last != 0 {
      MacStepAt(E, x[..], m, pos, last);
      MacBlock(E, x, m[pos..pos + last]);
      pos := pos + last;
    }
    MacEnd(E, x[..], m);
  }

  // ---- ccmp_aad_nonce

  lemma SeqAndQosMasks(lo: bv8, hi: bv8)
    ensures PutLe16(Le16([lo, hi]) & !0xfff0) == [lo & 0x0f, 0]
    ensures lo & !0x70 & !0x80 == lo & 0x0f
  {
  }

  /** aad is the whole 32-octet buffer; the caller stores the length in its first two octets. */
  method AadNonce(hdr: Octets, data: Octets, aad: array<bv8>, nonce: array<bv8>) returns (aadLen: nat)
    requires IsHeader(hdr) && |data| >= 8
    requires aad.Length == 32 && aad[..] == Zeros(32) && nonce.Length == 13 && aad != nonce
    modifies aad, nonce
    ensures aadLen == |Aad(hdr)|
    ensures aad[..] == [0, 0] + (Aad(hdr) + Zeros(30 - aadLen))
    ensures nonce[..] == Nonce(hdr, GetPn(data))
  {
    var fc, prio, addr4, qos := MaskAndPriority(hdr);
    aadLen := StoreAad(hdr, fc, addr4, qos, aad);
    nonce[0] := prio;
    MemCpy(nonce, 1, hdr[10..16]);
    StorePn(nonce, data, [prio] + hdr[10..16]);
  }

  method StorePn(nonce: array<bv8>, data: Octets, ghost head: Octets)
    requires nonce.Length == 13 && nonce[..7] == head && |data| >= 8
    modifies nonce
    ensures nonce[..] == head + GetPn(data)
  {
    nonce[7] := data[7];
    nonce[8] := data[6];
    nonce[9] := data[5];
    nonce[10] := data[4];
    nonce[11] := data[1];
    nonce[12] := data[0];
    assert nonce[..7] == head;
  }

  /** The masked frame control field, the priority octet, and which optional fields there are. */
  method MaskAndPriority(hdr: Octets) returns (fc: bv16, prio: bv8, addr4: nat, qos: nat)
    requires IsHeader(hdr)
    ensures fc == MaskFc(FrameControl(hdr)) && prio == NoncePriority(hdr)
    ensures addr4 == if HasAddr4(FrameControl(hdr)) then 1 else 0
    ensures qos == if HasQos(FrameControl(hdr)) then 1 else 0
  {
    prio := 0;
    fc := FrameControl(hdr);
    var stype := Subtype(fc);
    qos, addr4 := 0, 0;
    if fc & (FC_TODS | FC_FROMDS) == FC_TODS | FC_FROMDS {
      addr4 := 1;
    }
    if Type(fc) == TYPE_DATA {
      fc := fc & !0x0070;
      if stype & 0x08 != 0 {
        qos := 1;
        fc := fc & !FC_ORDER;
        var qc := 24;
        if addr4 == 1 {
          qc := qc + 6;
        }
        prio := hdr[qc] & 0x0f;
      }
    } else if Type(fc) == TYPE_MGMT {
      prio := prio | 0x10;
    }
    fc := fc & !(FC_RETRY | FC_PWRMGT | FC_MOREDATA);
    fc := fc | FC_ISWEP;
  }

  method StoreAad(hdr: Octets, fc: bv16, addr4: nat, qos: nat, aad: array<bv8>) returns (aadLen: nat)
    requires IsHeader(hdr) && fc == MaskFc(FrameControl(hdr))
    requires addr4 == (if HasAddr4(FrameControl(hdr)) then 1 else 0)
    requires qos == (if HasQos(FrameControl(hdr)) then 1 else 0)
    requires aad.Length == 32 && aad[..] == Zeros(32)
    modifies aad
    ensures aadLen == |Aad(hdr)|
    ensures aad[..] == [0, 0] + (Aad(hdr) + Zeros(30 - aadLen))
  {
    StoreAadFixed(hdr, fc, aad);
    ghost var fixed := AadFixed(hdr, fc);
    assert aad[..24] == [0, 0] + fixed && aad[24..] == Zeros(8);
    var n := StoreAadTail(hdr[24..24 + addr4 * 6 + qos * 2], addr4, qos, aad, [0, 0] + fixed);
    aadLen := 22 + n;
    JoinAad(aad[..], fixed, AadTail(hdr[24..24 + addr4 * 6 + qos * 2], addr4, qos));
    assert AadTail(hdr[24..24 + addr4 * 6 + qos * 2], addr4, qos) ==
      (if addr4 == 1 then hdr[24..30] else []) + (if qos == 1 then [QosOctet(hdr) & 0x0f, 0] else []);
    assert fixed + AadTail(hdr[24..24 + addr4 * 6 + qos * 2], addr4, qos) == Aad(hdr);
  }

  lemma JoinAad(s: Octets, fixed: Octets, tail: Octets)
    requires |s| == 32 && |fixed| == 22 && |tail| <= 8
    requires s[..24 + |tail|] == [0, 0] + fixed + tail && s[24 + |tail|..] == Zeros(8 - |tail|)
    ensures s == [0, 0] + ((fixed + tail) + Zeros(8 - |tail|))
  {
    assert s == s[..24 + |tail|] + s[24 + |tail|..];
    assert [0, 0] + fixed + tail == [0, 0] + (fixed + tail);
  }

  /** The fourth address and the masked QoS Control field. */
  function AadTail(t: Octets, addr4: nat, qos: nat): (r: Octets)
    requires addr4 <= 1 && qos <= 1 && |t| == addr4 * 6 + qos * 2
    ensures |r| == |t|
  {
    t[..addr4 * 6] + if qos == 1 then [t[addr4 * 6] & 0x0f, 0] else []
  }

  lemma TailMasked(s: Octets, r: Octets, done: Octets, t: Octets, n: nat)
    requires |s| == 32 && |t| == n + 2 <= 8 && |done| == 24 && s[..24 + |t|] == done + t
    requires r == s[..24 + n] + [s[24 + n] & 0x0f, 0] + s[24 + n + 2..]
    ensures r[..24 + |t|] == done + (t[..n] + [t[n] & 0x0f, 0]) && r[24 + |t|..] == s[24 + |t|..]
  {
    var d := s[..24 + |t|];
    assert d[24 + n] == s[24 + n] && (done + t)[24 + n] == t[n];
    assert d[..24 + n] == s[..24 + n] && (done + t)[..24 + n] == done + t[..n];
  }

  method StoreAadTail(t: Octets, addr4: nat, qos: nat, aad: array<bv8>, ghost done: Octets) returns (n: nat)
    requires addr4 <= 1 && qos <= 1 && |t| == addr4 * 6 + qos * 2
    requires aad.Length == 32 && aad[..24] == done && aad[24..] == Zeros(8)
    modifies aad
    ensures n == |t| && aad[..24 + n] == done + AadTail(t, addr4, qos) && aad[24 + n..] == Zeros(8 - n)
  {
    AppendTo(aad, 24, t, done);
    n := addr4 * 6;
    if qos == 1 {
      ghost var s := aad[..];
      MaskQos(aad, 24 + n);
      TailMasked(s, aad[..], done, t, n);
      n := n + 2;
    } else {
      assert t[..n] == t;
    }
  }

  method MaskQos(aad: array<bv8>, p: nat)
    requires p + 2 <= aad.Length
    modifies aad
    ensures aad[..] == old(aad[..p]) + [old(aad[p]) & 0x0f, 0] + old(aad[p + 2..])
  {
    SeqAndQosMasks(aad[p], 0);
    aad[p] := aad[p] & !0x70;
    aad[p] := aad[p] & !0x80;
    aad[p + 1] := 0x00;
  }

  ghost function AadFixed(hdr: Octets, fc: bv16): (r: Octets)
    requires |hdr| >= 24
    ensures |r| == 22
  {
    PutLe16(fc) + hdr[4..22] + [hdr[22] & 0x0f, 0]
  }

  method StoreAadFixed(hdr: Octets, fc: bv16, aad: array<bv8>)
    requires |hdr| >= 24 && aad.Length == 32 && aad[..] == Zeros(32)
    modifies aad
    ensures aad[..] == [0, 0] + AadFixed(hdr, fc) + Zeros(8)
  {
    assert hdr[22..24] == [hdr[22], hdr[23]];
    SeqAndQosMasks(hdr[22], hdr[23]);
    var seqCtrl := PutLe16(Le16(hdr[22..24]) & !0xfff0);
    StoreThree(aad, PutLe16(fc), hdr[4..22], seqCtrl);
  }

  /** Two octets, eighteen and two, behind the place of the length. */
  method StoreThree(aad: array<bv8>, a: Octets, b: Octets, c: Octets)
    requires aad.Length == 32 && aad[..] == Zeros(32) && |a| == 2 && |b| == 18 && |c| == 2
    modifies aad
    ensures aad[..] == [0, 0] + (a + b + c) + Zeros(8)
  {
    assert aad[..2] == [0, 0] && aad[2..] == Zeros(30);
    AppendTo(aad, 2, a, [0, 0]);
    var pos := 4;
    AppendTo(aad, pos, b, [0, 0] + a);
    pos := pos + 18;
    AppendTo(aad, pos, c, [0, 0] + a + b);
    JoinThree(aad[..], a, b, c);
  }

  lemma JoinThree(s: Octets, a: Octets, b: Octets, c: Octets)
    requires |s| == 32 && |a| == 2 && |b| == 18 && |c| == 2
    requires s[..24] == [0, 0] + a + b + c && s[24..] == Zeros(8)
    ensures s == [0, 0] + (a + b + c) + Zeros(8)
  {
    assert s == s[..24] + s[24..];
    assert [0, 0] + a + b + c == [0, 0] + (a + b + c);
  }

  /** Store octets where the buffer is still zero. */
  method AppendTo(aad: array<bv8>, pos: nat, src: Octets, ghost done: Octets)
    requires pos + |src| <= aad.Length && aad[..pos] == done && aad[pos..] == Zeros(aad.Length - pos)
    modifies aad
    ensures aad[..pos + |src|] == done + src && aad[pos + |src|..] == Zeros(aad.Length - pos - |src|)
  {
    MemCpy(aad, pos, src);
  }

  // ---- The authentication blocks B_0, B_1 and B_2

  lemma TwoBlocks(E: Cipher, x: Block, b1: Block, b2: Block)
    ensures CbcMac(E, x, b1 + b2) == E(Xor(b2, E(Xor(b1, x))))
  {
    var bs := b1 + b2;
    assert bs[..16] == b1 && bs[16..] == b2 && b2[..16] == b2 && b2[16..] == [];
    XorCommutes(x, b1);
    var y := E(Xor(x, b1));
    XorCommutes(y, b2);
    assert CbcMac(E, y, b2) == CbcMac(E, E(Xor(y, b2)), []);
  }

  lemma XorCommutes(a: Octets, b: Octets)
    requires |a| == |b|
    ensures Xor(a, b) == Xor(b, a)
  {
    forall k | 0 <= k < |a| ensures Xor(a, b)[k] == Xor(b, a)[k] {
      assert a[k] ^ b[k] == b[k] ^ a[k];
    }
  }

  /** Whatever the header, the additional data with its length fills exactly two blocks. */
  lemma AadFillsTwoBlocks(h: Octets)
    requires IsHeader(h)
    ensures var a := Aad(h);
      && |a| in {22, 24, 28, 30}
      && Pad(BigEndian(|a|, 2) + a) == BigEndian(|a|, 2) + (a + Zeros(30 - |a|))
  {
    var a := Aad(h);
    PadTo32(BigEndian(|a|, 2), a);
  }

  lemma PadTo32(n: Octets, a: Octets)
    requires |n| == 2 && |a| in {22, 24, 28, 30}
    ensures Pad(n + a) == n + (a + Zeros(30 - |a|))
  {
  }

  method StoreB0(nonce: Octets, mlen: nat, b: array<bv8>)
    requires ValidNonce(CCMP_PARAMS, nonce) && b.Length == 16
    modifies b
    ensures b[..] == B0(CCMP_PARAMS, nonce, mlen)
  {
    b[0] := 0x40 | (3 << 3) | 1;
    MemCpy(b, 1, nonce);
    PutBe16(b, 14, mlen);
  }

  method AuthenticateHeader(E: Cipher, nonce: Octets, mlen: nat, ghost hdr: Octets, aadLen: nat,
      aad: array<bv8>, x: array<bv8>)
    requires IsHeader(hdr) && ValidNonce(CCMP_PARAMS, nonce)
    requires aad.Length == 32 && x.Length == 16 && aad != x
    requires aadLen == |Aad(hdr)| && aad[..] == BigEndian(aadLen, 2) + (Aad(hdr) + Zeros(30 - aadLen))
    modifies aad, x
    ensures x[..] == CbcMac(E, E(B0(CCMP_PARAMS, nonce, mlen)), Pad(BigEndian(|Aad(hdr)|, 2) + Aad(hdr)))
  {
    AadFillsTwoBlocks(hdr);
    var b := new bv8[16];
    StoreB0(nonce, mlen, b);
    AesEncrypt(E, b, x, 0);
    assert x[..] == E(B0(CCMP_PARAMS, nonce, mlen));
    AuthenticateTwoBlocks(E, aad, x);
  }

  /** xor_aes_block(&aad[d], x); aes_encrypt(aes, &aad[d], x) */
  method AuthenticateBlock(E: Cipher, aad: array<bv8>, d: nat, x: array<bv8>)
    requires d + 16 <= aad.Length && x.Length == 16 && aad != x
    modifies aad, x
    ensures x[..] == E(Xor(old(aad[d..d + 16]), old(x[..])))
    ensures aad[d + 16..] == old(aad[d + 16..])
  {
    XorAesBlock(aad, d, x[..]);
    assert aad[d..d + 16] == Xor(old(aad[d..d + 16]), old(x[..]));
    MemCpy(x, 0, E(aad[d..d + 16]));
  }

  method AuthenticateTwoBlocks(E: Cipher, aad: array<bv8>, x: array<bv8>)
    requires aad.Length == 32 && x.Length == 16 && aad != x
    modifies aad, x
    ensures x[..] == CbcMac(E, old(x[..]), old(aad[..]))
  {
    ghost var b1, b2 := aad[0..16], aad[16..32];
    assert aad[..] == b1 + b2 && aad[16..] == b2;
    TwoBlocks(E, x[..], b1, b2);
    AuthenticateBlock(E, aad, 0, x);
    assert aad[16..32] == b2;
    AuthenticateBlock(E, aad, 16, x);
  }

  // ---- What both directions share

  /** The AAD blocks, the nonce and the counter block of a frame. */
  method Setup(hdr: Octets, data: Octets) returns (aad: array<bv8>, aadLen: nat, nonce: Octets, a: array<bv8>)
    requires IsHeader(hdr) && |data| >= 8
    ensures fresh(aad) && fresh(a) && aad != a
    ensures nonce == Nonce(hdr, GetPn(data)) && HoldsCounter(a, nonce)
    ensures aad.Length == 32 && aadLen == |Aad(hdr)|
    ensures aad[..] == BigEndian(aadLen, 2) + (Aad(hdr) + Zeros(30 - aadLen))
  {
    aad := new bv8[32](_ => 0);
    var n := new bv8[13];
    assert aad[..] == Zeros(32);
    aadLen := AadNonce(hdr, data, aad, n);
    nonce := n[..];
    StoreLength(aad, aadLen, Aad(hdr) + Zeros(30 - aadLen));
    a := CounterArray(nonce);
  }

  method StoreLength(aad: array<bv8>, aadLen: nat, ghost rest: Octets)
    requires aad.Length == 32 && |rest| == 30 && aad[..] == [0, 0] + rest
    modifies aad
    ensures aad[..] == BigEndian(aadLen, 2) + rest
  {
    assert aad[2..] == rest;
    PutBe16(aad, 0, aadLen);
  }

  method CounterArray(nonce: Octets) returns (a: array<bv8>)
    requires |nonce| == 13
    ensures fresh(a) && HoldsCounter(a, nonce)
  {
    a := new bv8[16];
    a[0] := 0x01;
    MemCpy(a, 1, nonce);
  }

  /** B_0, the additional data and the message; the tag is the first 8 octets of x. */
  method ComputeTag(E: Cipher, nonce: Octets, ghost hdr: Octets, aadLen: nat, aad: array<bv8>, m: Octets) returns (t: Octets)
    requires IsHeader(hdr) && ValidNonce(CCMP_PARAMS, nonce)
    requires aad.Length == 32 && aadLen == |Aad(hdr)|
    requires aad[..] == BigEndian(aadLen, 2) + (Aad(hdr) + Zeros(30 - aadLen))
    modifies aad
    ensures t == Tag(E, CCMP_PARAMS, nonce, Aad(hdr), m)
  {
    var x := new bv8[16];
    AuthenticateHeader(E, nonce, |m|, hdr, aadLen, aad, x);
    CbcMacConcat(E, E(B0(CCMP_PARAMS, nonce, |m|)), Pad(BigEndian(|Aad(hdr)|, 2) + Aad(hdr)), Pad(m));
    MacLoop(E, x, m);
    t := x[..][..8];
  }

  method StoreXor(out: array<bv8>, d: nat, v: Octets, w: Octets)
    requires |v| == |w| && d + |v| <= out.Length
    modifies out
    ensures out[..] == old(out[..d]) + Xor(v, w) + old(out[d + |v|..])
  {
    var i := 0;
    while i < |v|
      invariant 0 <= i <= |v|
      invariant forall k :: 0 <= k < i ==> out[d + k] == v[k] ^ w[k]
      invariant out[..d] == old(out[..d]) && out[d + |v|..] == old(out[d + |v|..])
    {
      out[d + i] := v[i] ^ w[i];
      i := i + 1;
    }
  }

  /** U = T XOR S_0, or T = U XOR S_0 */
  method MaskWithS0(E: Cipher, ghost nonce: Octets, a: array<bv8>, src: Octets, out: array<bv8>, d: nat)
    requires HoldsCounter(a, nonce)
    requires |src| == 8 && d + 8 <= out.Length && a != out
    modifies a, out
    ensures HoldsCounter(a, nonce)
    ensures out[..] == old(out[..d]) + MaskTag(E, CCMP_PARAMS, nonce, src) + old(out[d + 8..])
  {
    var s0 := StreamBlock(E, nonce, a, 0, Stream(E, nonce));
    StoreXor(out, d, src, s0[..8]);
  }

  // ---- ccmp_decrypt

  function Decapsulate(E: Cipher, hdr: Octets, data: Octets): Option<Octets>
    requires IsHeader(hdr)
  {
    if |data| < 8 + 8 then None
    else Decrypt(E, CCMP_PARAMS, Nonce(hdr, GetPn(data)), Aad(hdr), data[8..])
  }

  method CcmpDecrypt(E: Cipher, hdr: Octets, data: Octets) returns (plain: array?<bv8>, decryptedLen: nat)
    requires IsHeader(hdr)
    ensures plain == null <==> Decapsulate(E, hdr, data) == None
    ensures plain != null ==> decryptedLen <= plain.Length && Decapsulate(E, hdr, data) == Some(plain[..decryptedLen])
  {
    if |data| < 8 + 8 {
      return null, 0;
    }
    plain := new bv8[|data| + 16];
    decryptedLen := |data| - 8 - 8;
    ghost var c := data[8..];
    assert c[..decryptedLen] == data[8..8 + decryptedLen] && c[decryptedLen..] == data[8 + decryptedLen..];
    var aad, aadLen, nonce, a := Setup(hdr, data);
    var t := Unseal(E, nonce, a, data[8..8 + decryptedLen], data[8 + decryptedLen..], plain);
    var x := ComputeTag(E, nonce, hdr, aadLen, aad, plain[..decryptedLen]);
    if x != t {
      return null, 0;
    }
  }

  /** T = U XOR S_0, and the message in the clear. */
  method Unseal(E: Cipher, ghost nonce: Octets, a: array<bv8>, m: Octets, mic: Octets, plain: array<bv8>) returns (t: Octets)
    requires HoldsCounter(a, nonce) && a != plain && |m| + 16 <= plain.Length && |mic| == 8
    modifies a, plain
    ensures t == MaskTag(E, CCMP_PARAMS, nonce, mic)
    ensures plain[..|m|] == Ctr(E, CCMP_PARAMS, nonce, m)
  {
    var u := new bv8[8];
    MaskWithS0(E, nonce, a, mic, u, 0);
    t := u[..];
    CtrLoop(E, nonce, a, m, plain, 0);
  }

  // ---- ccmp_encrypt

  /** The header as it is sent, with the Protected Frame bit set. */
  function ProtectedHeader(h: Octets): (r: Octets)
    requires |h| >= 24
    ensures |r| == |h|
  {
    PutLe16(FrameControl(h) | FC_ISWEP) + h[2..]
  }

  /** The header in memory while the frame is encrypted: the CCMP header follows it. */
  function SentHeader(frame: Octets, hdrlen: nat, pn: Octets, keyid: bv8): (r: Octets)
    requires 24 <= hdrlen <= |frame| && |pn| == 6
    ensures IsHeader(r) && |r| == hdrlen + 8
  {
    ProtectedHeader(frame[..hdrlen]) + Iv(pn, keyid)
  }

  function Encapsulate(E: Cipher, frame: Octets, hdrlen: nat, pn: Octets, keyid: bv8): (r: Octets)
    requires 24 <= hdrlen <= |frame| && |pn| == 6
    ensures |r| == |frame| + 16
  {
    var h := SentHeader(frame, hdrlen, pn, keyid);
    h + Encrypt(E, CCMP_PARAMS, Nonce(h, pn), Aad(h), frame[hdrlen..])
  }

  method CcmpEncrypt(E: Cipher, frame: Octets, hdrlen: nat, pn: Octets, keyid: bv8)
    returns (crypt: array?<bv8>, encryptedLen: nat)
    requires |pn| == 6
    ensures crypt == null <==> |frame| < hdrlen || hdrlen < 24
    ensures crypt != null ==>
      && encryptedLen <= crypt.Length
      && crypt[..encryptedLen] == Encapsulate(E, frame, hdrlen, pn, keyid)
  {
    if |frame| < hdrlen || hdrlen < 24 {
      return null, 0;
    }
    var plen := |frame| - hdrlen;
    crypt := new bv8[hdrlen + 8 + plen + 8 + 16];
    StoreHeader(frame, hdrlen, pn, keyid, crypt);
    SealPayload(E, crypt[..hdrlen + 8], crypt[hdrlen..hdrlen + 8], frame[hdrlen..], crypt);
    encryptedLen := hdrlen + 8 + plen + 8;
  }

  method StoreHeader(frame: Octets, hdrlen: nat, pn: Octets, keyid: bv8, crypt: array<bv8>)
    requires 24 <= hdrlen <= |frame| && |pn| == 6 && hdrlen + 8 <= crypt.Length
    modifies crypt
    ensures crypt[..hdrlen + 8] == SentHeader(frame, hdrlen, pn, keyid)
    ensures GetPn(crypt[hdrlen..hdrlen + 8]) == pn
  {
    MemCpy(crypt, 0, frame[..hdrlen]);
    var fc := FrameControl(frame[..hdrlen]) | FC_ISWEP;
    assert crypt[2..hdrlen] == frame[..hdrlen][2..];
    MemCpy(crypt, 0, PutLe16(fc));
    assert crypt[..2] == PutLe16(fc) && crypt[2..hdrlen] == frame[..hdrlen][2..];
    assert crypt[..hdrlen] == crypt[..2] + crypt[2..hdrlen];
    assert crypt[..hdrlen] == ProtectedHeader(frame[..hdrlen]);
    MemCpy(crypt, hdrlen, [pn[5], pn[4], 0x00, 0x20 | (keyid << 6), pn[3], pn[2], pn[1], pn[0]]);
    assert crypt[hdrlen..hdrlen + 8] == Iv(pn, keyid) + [];
    GetPnOfIv(pn, keyid, []);
  }

  /** Authenticate and encrypt the payload behind a header that is already in place. */
  method SealPayload(E: Cipher, hdr: Octets, data: Octets, m: Octets, crypt: array<bv8>)
    requires IsHeader(hdr) && |data| >= 8 && |hdr| + |m| + 8 + 16 <= crypt.Length
    requires crypt[..|hdr|] == hdr
    modifies crypt
    ensures crypt[..|hdr| + |m| + 8] == hdr + Encrypt(E, CCMP_PARAMS, Nonce(hdr, GetPn(data)), Aad(hdr), m)
  {
    var aad, aadLen, nonce, a := Setup(hdr, data);
    var x := ComputeTag(E, nonce, hdr, aadLen, aad, m);
    StoreSealed(E, nonce, a, hdr, m, x, crypt);
  }

  method StoreSealed(E: Cipher, ghost nonce: Octets, a: array<bv8>, hdr: Octets, m: Octets, x: Octets, crypt: array<bv8>)
    requires HoldsCounter(a, nonce) && a != crypt && |x| == 8
    requires |hdr| + |m| + 8 + 16 <= crypt.Length && crypt[..|hdr|] == hdr
    modifies a, crypt
    ensures crypt[..|hdr| + |m| + 8] ==
      hdr + (Ctr(E, CCMP_PARAMS, nonce, m) + MaskTag(E, CCMP_PARAMS, nonce, x))
  {
    var d := |hdr| + |m|;
    CtrLoop(E, nonce, a, m, crypt, |hdr|);
    ghost var c := Ctr(E, CCMP_PARAMS, nonce, m);
    assert crypt[..d] == hdr + c;
    MaskWithS0(E, nonce, a, x, crypt, d);
    ghost var u := MaskTag(E, CCMP_PARAMS, nonce, x);
    assert crypt[..d + 8] == (hdr + c) + u;
    assert (hdr + c) + u == hdr + (c + u);
  }

  // ---- Round trip

  /** What is accepted, and as what, is decided by CCM alone. */
  lemma CcmpAcceptsExactlyEncryptions(E: Cipher, hdr: Octets, data: Octets, m: Octets)
    requires IsHeader(hdr) && |data| >= 8
    ensures Decapsulate(E, hdr, data) == Some(m) <==>
      data[8..] == Encrypt(E, CCMP_PARAMS, Nonce(hdr, GetPn(data)), Aad(hdr), m)
  {
    DecryptInvertsEncrypt(E, CCMP_PARAMS, Nonce(hdr, GetPn(data)), Aad(hdr), data[8..], m);
  }

  /**
   Whatever is encrypted is recovered, also when the unprotected header fields differ on reception
   (a retransmission sets Retry, renumbering changes the sequence number, and so on).
   */
  lemma CcmpRoundTrip(E: Cipher, frame: Octets, hdrlen: nat, pn: Octets, keyid: bv8, received: Octets)
    requires 24 <= hdrlen <= |frame| && |pn| == 6
    requires IsHeader(received) && SameProtectedFields(SentHeader(frame, hdrlen, pn, keyid), received)
    ensures Decapsulate(E, received, Encapsulate(E, frame, hdrlen, pn, keyid)[hdrlen..]) == Some(frame[hdrlen..])
  {
    var h := SentHeader(frame, hdrlen, pn, keyid);
    var sealed := Encrypt(E, CCMP_PARAMS, Nonce(h, pn), Aad(h), frame[hdrlen..]);
    var data := Encapsulate(E, frame, hdrlen, pn, keyid)[hdrlen..];
    assert data == Iv(pn, keyid) + sealed;
    assert data[8..] == sealed;
    GetPnOfIv(pn, keyid, sealed);
    AadBindsProtectedFields(h, received, pn);
    CcmpAcceptsExactlyEncryptions(E, received, data, frame[hdrlen..]);
  }

  /** In particular the frame itself can serve as the received header. */
  lemma CcmpRoundTripUnchanged(E: Cipher, frame: Octets, hdrlen: nat, pn: Octets, keyid: bv8)
    requires 24 <= hdrlen <= |frame| && |pn| == 6
    ensures var sent := Encapsulate(E, frame, hdrlen, pn, keyid);
      IsHeader(sent) && Decapsulate(E, sent, sent[hdrlen..]) == Some(frame[hdrlen..])
  {
    var h, sent := SentHeader(frame, hdrlen, pn, keyid), Encapsulate(E, frame, hdrlen, pn, keyid);
    assert sent[..hdrlen + 8] == h;
    assert forall k :: 0 <= k < hdrlen + 8 ==> sent[k] == sent[..hdrlen + 8][k];
    assert FrameControl(sent) == FrameControl(h) by { assert sent[..2] == h[..2]; }
    var fc := FrameControl(h);
    assert (fc ^ fc) & !MutableFc(fc) == 0;
    assert sent[4..22] == h[4..22] && sent[24..30] == h[24..30];
    CcmpRoundTrip(E, frame, hdrlen, pn, keyid, sent);
  }
}
