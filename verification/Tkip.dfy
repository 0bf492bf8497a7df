/** TKIP decapsulation (hostap08/wlantest/tkip.c). */
module Tkip {
  import opened Octets
  import opened Ieee80211
  import opened TkipMixing
  import Word16
  import Michael
  import Rc4
  import Wep
  import Fcs
  import TkipSbox
  import opened Wrappers

  // ---- Key mixing on its buffers

  /** a[i] += d, which is step k of the ring. */
  method FeedWord(a: array<bv16>, i: nat, d: bv16, ghost f: (nat, bv16) -> bv16, ghost start: Ring, ghost k: nat)
    requires a.Length >= 2 && i < a.Length && k % a.Length == i
    requires a[..] == Run(f, start, k) && d == f(k, a[Before(i, a.Length)])
    modifies a
    ensures a[..] == Run(f, start, k + 1)
  {
    a[i] := Word16.Plus(a[i], d);
  }

  lemma WordNumber(i: nat, pos: nat)
    requires pos < 5
    ensures (5 * i + pos) / 5 == i && (5 * i + pos) % 5 == pos
  {
  }

  lemma Phase1Step(S: bv16 -> bv16, tk: Octets, i: nat, pos: nat, x: bv16)
    requires |tk| >= 16 && pos < 5
    ensures (5 * i + pos) % 5 == pos
    ensures Phase1Feeds(S, tk)(5 * i + pos, x) == Phase1At(S, tk, i, pos, x)
  {
    WordNumber(i, pos);
  }

  method RoundNumber(i: nat) returns (w: bv16)
    requires i < 8
    ensures w == RoundWord(i)
  {
    w := i as bv16;
  }

  method Phase1KeyWord(TK: Octets, i: nat, pos: nat) returns (w: bv16)
    requires |TK| >= 16 && pos < 5
    ensures w == Phase1Key(TK, i, pos)
  {
    var j := 2 * (i % 2);
    if pos != 4 {
      j := j + 4 * pos;
    }
    w := Mk16(TK[1 + j], TK[j]);
  }

  method Phase1Growth(S: bv16 -> bv16, TK: Octets, i: nat, pos: nat, x: bv16) returns (d: bv16)
    requires |TK| >= 16 && i < 8 && pos < 5
    ensures d == Phase1At(S, TK, i, pos, x)
  {
    var key := Phase1KeyWord(TK, i, pos);
    d := S(x ^ key);
    if pos == 4 {
      var w := RoundNumber(i);
      d := Word16.Plus(d, w);
    }
  }

  /** TTAK[pos] += _S_(TTAK[pos - 1] ^ Mk16(...)), with the round number added to the last word. */
  method Phase1Word(S: bv16 -> bv16, TTAK: array<bv16>, TK: Octets, i: nat, pos: nat, ghost start: Ring)
    requires TTAK.Length == 5 && |TK| >= 16 && i < 8 && pos < 5
    requires TTAK[..] == Run(Phase1Feeds(S, TK), start, 5 * i + pos)
    modifies TTAK
    ensures TTAK[..] == Run(Phase1Feeds(S, TK), start, 5 * i + pos + 1)
  {
    var x := TTAK[Before(pos, 5)];
    var d := Phase1Growth(S, TK, i, pos, x);
    Phase1Step(S, TK, i, pos, x);
    FeedWord(TTAK, pos, d, Phase1Feeds(S, TK), start, 5 * i + pos);
  }

  method Phase1Round(S: bv16 -> bv16, TTAK: array<bv16>, TK: Octets, i: nat, ghost start: Ring)
    requires TTAK.Length == 5 && |TK| >= 16 && i < 8
    requires TTAK[..] == Run(Phase1Feeds(S, TK), start, 5 * i)
    modifies TTAK
    ensures TTAK[..] == Run(Phase1Feeds(S, TK), start, 5 * (i + 1))
  {
    var pos := 0;
    while pos < 5
      invariant 0 <= pos <= 5
      invariant TTAK[..] == Run(Phase1Feeds(S, TK), start, 5 * i + pos)
    {
      Phase1Word(S, TTAK, TK, i, pos, start);
      pos := pos + 1;
    }
  }

  method MixingPhase1(S: bv16 -> bv16, TTAK: array<bv16>, TK: Octets, TA: Octets, IV32: bv32)
    requires TTAK.Length == 5 && |TK| >= 16 && |TA| == 6
    modifies TTAK
    ensures TTAK[..] == Phase1(S, TK, TA, IV32)
  {
    TTAK[0] := Lo16(IV32);
    TTAK[1] := Hi16(IV32);
    TTAK[2] := Mk16(TA[1], TA[0]);
    TTAK[3] := Mk16(TA[3], TA[2]);
    TTAK[4] := Mk16(TA[5], TA[4]);
    ghost var start := Phase1Init(TA, IV32);
    assert TTAK[..] == start;
    var i := 0;
    while i < 8
      invariant 0 <= i <= 8
      invariant TTAK[..] == Run(Phase1Feeds(S, TK), start, 5 * i)
    {
      Phase1Round(S, TTAK, TK, i, start);
      i := i + 1;
    }
    assert 5 * i == 8 * |start|;
  }

  lemma Phase2Steps(S: bv16 -> bv16, tk: Octets, k: nat, x: bv16)
    requires |tk| >= 16
    ensures k < 6 ==> Phase2Feeds(S, tk)(k, x) == S(x ^ TkWord(tk, k))
    ensures 6 <= k < 8 ==> Phase2Feeds(S, tk)(k, x) == RotR1(x ^ TkWord(tk, k))
    ensures k >= 8 ==> Phase2Feeds(S, tk)(k, x) == RotR1(x)
  {
  }

  /** PPK[k] += _S_(PPK[k - 1] ^ Mk16_le(TK[2k])) */
  method MixS(S: bv16 -> bv16, PPK: array<bv16>, TK: Octets, k: nat, ghost start: Ring)
    requires PPK.Length == 6 && |TK| >= 16 && k < 6 && PPK[..] == Run(Phase2Feeds(S, TK), start, k)
    modifies PPK
    ensures PPK[..] == Run(Phase2Feeds(S, TK), start, k + 1)
  {
    var x := PPK[Before(k, 6)];
    var d := S(x ^ Le16(TK[2 * k..2 * k + 2]));
    Phase2Steps(S, TK, k, x);
    FeedWord(PPK, k, d, Phase2Feeds(S, TK), start, k);
  }

  /** PPK[k - 6] += RotR1(PPK[k - 7] ^ Mk16_le(TK[2k])) */
  method MixKeyRotated(ghost S: bv16 -> bv16, PPK: array<bv16>, TK: Octets, k: nat, ghost start: Ring)
    requires PPK.Length == 6 && |TK| >= 16 && 6 <= k < 8 && PPK[..] == Run(Phase2Feeds(S, TK), start, k)
    modifies PPK
    ensures PPK[..] == Run(Phase2Feeds(S, TK), start, k + 1)
  {
    var x := PPK[Before(k - 6, 6)];
    var d := RotR1(x ^ Le16(TK[2 * k..2 * k + 2]));
    Phase2Steps(S, TK, k, x);
    FeedWord(PPK, k - 6, d, Phase2Feeds(S, TK), start, k);
  }

  /** PPK[k - 6] += RotR1(PPK[k - 7]) */
  method MixRotated(ghost S: bv16 -> bv16, PPK: array<bv16>, ghost TK: Octets, k: nat, ghost start: Ring)
    requires PPK.Length == 6 && |TK| >= 16 && 8 <= k < 12 && PPK[..] == Run(Phase2Feeds(S, TK), start, k)
    modifies PPK
    ensures PPK[..] == Run(Phase2Feeds(S, TK), start, k + 1)
  {
    var x := PPK[k - 7];
    var d := RotR1(x);
    Phase2Steps(S, TK, k, x);
    FeedWord(PPK, k - 6, d, Phase2Feeds(S, TK), start, k);
  }

  /** Step 2: the 96-bit bijective mixing, six statements, two and four. */
  method Phase2Mix(S: bv16 -> bv16, PPK: array<bv16>, TK: Octets)
    requires PPK.Length == 6 && |TK| >= 16
    modifies PPK
    ensures PPK[..] == Run(Phase2Feeds(S, TK), old(PPK[..]), 12)
  {
    ghost var start := PPK[..];
    var k := 0;
    while k < 6
      invariant 0 <= k <= 6
      invariant PPK[..] == Run(Phase2Feeds(S, TK), start, k)
    {
      MixS(S, PPK, TK, k, start);
      k := k + 1;
    }
    while k < 8
      invariant 6 <= k <= 8
      invariant PPK[..] == Run(Phase2Feeds(S, TK), start, k)
    {
      MixKeyRotated(S, PPK, TK, k, start);
      k := k + 1;
    }
    while k < 12
      invariant 8 <= k <= 12
      invariant PPK[..] == Run(Phase2Feeds(S, TK), start, k)
    {
      MixRotated(S, PPK, TK, k, start);
      k := k + 1;
    }
  }

  method MixingPhase2(S: bv16 -> bv16, TK: Octets, TTAK: array<bv16>, IV16: bv16) returns (seed: Octets)
    requires TTAK.Length == 5 && |TK| >= 16
    ensures seed == SeedOf(TK, Phase2(S, TK, TTAK[..], IV16), IV16)
  {
    var PPK := new bv16[6];
    PPK[0] := TTAK[0];
    PPK[1] := TTAK[1];
    PPK[2] := TTAK[2];
    PPK[3] := TTAK[3];
    PPK[4] := TTAK[4];
    PPK[5] := Word16.Plus(IV16, TTAK[4]);
    ghost var start := Phase2Init(TTAK[..], IV16);
    assert PPK[..] == start;
    Phase2Mix(S, PPK, TK);
    assert 12 == 2 * |start|;
    ghost var ppk := PPK[..];
    assert ppk == Phase2(S, TK, TTAK[..], IV16);
    seed := StoreSeed(TK, PPK[..], IV16);
  }

  method StoreSeed(TK: Octets, ppk: Ring, IV16: bv16) returns (seed: Octets)
    requires |TK| >= 16 && |ppk| == 6
    ensures seed == SeedOf(TK, ppk, IV16)
  {
    seed := [Hi8(IV16), (Hi8(IV16) | 0x20) & 0x7f, Lo8(IV16), Lo8((ppk[5] ^ TkWord(TK, 0)) >> 1)];
    var i := 0;
    ghost var head := seed;
    while i < 6
      invariant 0 <= i <= 6
      invariant seed + PutWords(ppk[i..]) == head + PutWords(ppk)
    {
      assert ppk[i..][0] == ppk[i] && ppk[i..][1..] == ppk[i + 1..];
      seed := seed + PutLe16(ppk[i]);
      i := i + 1;
    }
  }

  // ---- The header that Michael protects

  function Addr4(h: Octets): Octets
    requires |h| >= 30
  {
    h[24..30]
  }

  function Priority(h: Octets): bv8
    requires IsHeader(h)
  {
    if HasQos(FrameControl(h)) then QosOctet(h) & 0x0f else 0
  }

  predicate ToDs(h: Octets) requires |h| >= 2 { FrameControl(h) & FC_TODS != 0 }
  predicate FromDs(h: Octets) requires |h| >= 2 { FrameControl(h) & FC_FROMDS != 0 }

  /** Where the MSDU is going to, behind the access point if there is one. */
  function Destination(h: Octets): (a: Octets)
    requires IsHeader(h)
    ensures |a| == 6
  {
    if ToDs(h) then Addr3(h) else Addr1(h)
  }

  function Source(h: Octets): (a: Octets)
    requires IsHeader(h)
    ensures |a| == 6
  {
    DirectionBits(FrameControl(h));
    if !FromDs(h) then Addr2(h) else if ToDs(h) then Addr4(h) else Addr3(h)
  }

  lemma DirectionBits(fc: bv16)
    ensures HasAddr4(fc) <==> fc & FC_TODS != 0 && fc & FC_FROMDS != 0
    ensures fc & (FC_FROMDS | FC_TODS) == FC_TODS <==> fc & FC_TODS != 0 && fc & FC_FROMDS == 0
    ensures fc & (FC_FROMDS | FC_TODS) == FC_FROMDS <==> fc & FC_TODS == 0 && fc & FC_FROMDS != 0
    ensures fc & (FC_FROMDS | FC_TODS) == 0 <==> fc & FC_TODS == 0 && fc & FC_FROMDS == 0
  {
  }

  function MicHeader(h: Octets): (r: Octets)
    requires IsHeader(h)
    ensures |r| == 16
  {
    Destination(h) + Source(h) + [Priority(h), 0, 0, 0]
  }

  method MichaelMicHdr(h: Octets) returns (hdr: Octets)
    requires IsHeader(h)
    ensures hdr == MicHeader(h)
  {
    var fc := FrameControl(h);
    DirectionBits(fc);
    var hdrlen := 24;
    var ds := fc & (FC_FROMDS | FC_TODS);
    if ds == FC_TODS {
      hdr := Addr3(h) + Addr2(h);
    } else if ds == FC_FROMDS {
      hdr := Addr1(h) + Addr3(h);
    } else if ds == 0 {
      hdr := Addr1(h) + Addr2(h);
    } else {
      hdr := Addr3(h) + h[24..30];
      hdrlen := hdrlen + 6;
    }
    if Type(fc) == TYPE_DATA && Subtype(fc) & 0x08 != 0 {
      hdr := hdr + [h[hdrlen] & 0x0f, 0, 0, 0];
    } else {
      hdr := hdr + [0, 0, 0, 0];
    }
  }

  // ---- Encapsulation (section 8.3.2 of IEEE Std 802.11-2007) and its inverse

  /** What is sent after the IV: payload, Michael code and CRC, enciphered. */
  function Seal(rc4: Octets, micKey: Octets, hdr: Octets, m: Octets): (c: Octets)
    requires |rc4| == 16 && |micKey| == 8 && |hdr| == 16
    ensures |c| == |m| + 12
  {
    var msdu := m + Michael.Mic(micKey, hdr, m);
    Rc4.Crypt(rc4, msdu + PutLe32(Fcs.Checksum(msdu)))
  }

  function Open(rc4: Octets, micKey: Octets, hdr: Octets, c: Octets): Option<Octets>
    requires |rc4| == 16 && |micKey| == 8 && |hdr| == 16 && |c| >= 4
  {
    CheckMic(micKey, hdr, Rc4.Crypt(rc4, c))
  }

  /** The payload of a deciphered body, if both checks pass. */
  function CheckMic(micKey: Octets, hdr: Octets, p: Octets): Option<Octets>
    requires |micKey| == 8 && |hdr| == 16 && |p| >= 4
  {
    if !Fcs.FcsValid(p) || |p| < 12 then None
    else
      var n := |p| - 12;
      if Michael.Mic(micKey, hdr, p[..n]) == p[n..n + 8] then Some(p[..n]) else None
  }

  lemma CheckMicExactly(micKey: Octets, hdr: Octets, p: Octets, m: Octets)
    requires |micKey| == 8 && |hdr| == 16 && |p| >= 4
    ensures CheckMic(micKey, hdr, p) == Some(m) <==>
      var msdu := m + Michael.Mic(micKey, hdr, m); p == msdu + PutLe32(Fcs.Checksum(msdu))
  {
    if CheckMic(micKey, hdr, p) == Some(m) {
      AcceptedBody(micKey, hdr, p, m);
    }
    var mic := Michael.Mic(micKey, hdr, m);
    if p == m + mic + PutLe32(Fcs.Checksum(m + mic)) {
      SealedBody(micKey, hdr, m, mic, p);
    }
  }

  lemma AcceptedBody(micKey: Octets, hdr: Octets, p: Octets, m: Octets)
    requires |micKey| == 8 && |hdr| == 16 && |p| >= 4 && CheckMic(micKey, hdr, p) == Some(m)
    ensures var msdu := m + Michael.Mic(micKey, hdr, m); p == msdu + PutLe32(Fcs.Checksum(msdu))
  {
    var n := |p| - 12;
    assert p[..n + 8] == p[..n] + p[n..n + 8];
    assert p == p[..n + 8] + p[n + 8..];
    Le32Inverse(Fcs.Checksum(p[..n + 8]), p[n + 8..]);
  }

  lemma SealedBody(micKey: Octets, hdr: Octets, m: Octets, mic: Octets, p: Octets)
    requires |micKey| == 8 && |hdr| == 16 && mic == Michael.Mic(micKey, hdr, m)
    requires p == m + mic + PutLe32(Fcs.Checksum(m + mic))
    ensures CheckMic(micKey, hdr, p) == Some(m)
  {
    var n := |m|;
    assert p[..n] == m && p[n..n + 8] == mic && p[..n + 8] == m + mic;
    assert p[n + 8..] == PutLe32(Fcs.Checksum(m + mic));
    Le32Inverse(Fcs.Checksum(m + mic), p[n + 8..]);
  }

  /** A body opens to m exactly if it is the sealed form of m. */
  lemma OpenExactly(rc4: Octets, micKey: Octets, hdr: Octets, c: Octets, m: Octets)
    requires |rc4| == 16 && |micKey| == 8 && |hdr| == 16 && |c| >= 4
    ensures Open(rc4, micKey, hdr, c) == Some(m) <==> c == Seal(rc4, micKey, hdr, m)
  {
    CheckMicExactly(micKey, hdr, Rc4.Crypt(rc4, c), m);
    Rc4.CryptInvolution(rc4, c);
    var msdu := m + Michael.Mic(micKey, hdr, m);
    Rc4.CryptInvolution(rc4, msdu + PutLe32(Fcs.Checksum(msdu)));
  }

  /** The Michael key of the sending side: the access point's for frames from the distribution system. */
  function MicKey(tk: Octets, h: Octets): (r: Octets)
    requires |tk| == 32 && |h| >= 2
    ensures |r| == 8
  {
    if FromDs(h) then tk[16..24] else tk[24..32]
  }

  /** The sequence counter in the IV and Extended IV. */
  function Tsc16(data: Octets): bv16
    requires |data| >= 8
  {
    Mk16(data[0], data[2])
  }

  function Tsc32(data: Octets): bv32
    requires |data| >= 8
  {
    Le32(data[4..8])
  }

  function Iv(tsc32: bv32, tsc16: bv16, keyid: bv8): (r: Octets)
    ensures |r| == 8
  {
    [Hi8(tsc16), (Hi8(tsc16) | 0x20) & 0x7f, Lo8(tsc16), 0x20 | (keyid << 6)] + PutLe32(tsc32)
  }

  lemma Mk16OfHalves(v: bv16)
    ensures Mk16(Hi8(v), Lo8(v)) == v
  {
  }

  lemma TscOfIv(tsc32: bv32, tsc16: bv16, keyid: bv8, c: Octets)
    ensures var data := Iv(tsc32, tsc16, keyid) + c;
      Tsc32(data) == tsc32 && Tsc16(data) == tsc16 && data[8..] == c
  {
    var data := Iv(tsc32, tsc16, keyid) + c;
    assert data[4..8] == PutLe32(tsc32);
    Le32Inverse(tsc32, data[4..8]);
    Mk16OfHalves(tsc16);
  }

  function Encapsulate(S: bv16 -> bv16, tk: Octets, h: Octets, keyid: bv8, tsc32: bv32, tsc16: bv16, m: Octets)
    : (data: Octets)
    requires |tk| == 32 && IsHeader(h)
    ensures |data| == |m| + 20
  {
    Iv(tsc32, tsc16, keyid) + Seal(Seed(S, tk, Addr2(h), tsc32, tsc16), MicKey(tk, h), MicHeader(h), m)
  }

  function Decapsulate(S: bv16 -> bv16, tk: Octets, h: Octets, data: Octets): Option<Octets>
    requires |tk| == 32 && IsHeader(h)
  {
    if |data| < 12 then None
    else Open(Seed(S, tk, Addr2(h), Tsc32(data), Tsc16(data)), MicKey(tk, h), MicHeader(h), data[8..])
  }

  /**
   Whatever header the receiver has, it recovers the payload if the sender's addresses, priority and
   direction are the same in it.
   */
  lemma TkipRoundTrip(S: bv16 -> bv16, tk: Octets, h: Octets, h': Octets, keyid: bv8, hi: bv32, lo: bv16, m: Octets)
    requires |tk| == 32 && IsHeader(h) && IsHeader(h')
    requires Addr2(h) == Addr2(h') && MicHeader(h) == MicHeader(h') && FromDs(h) == FromDs(h')
    ensures Decapsulate(S, tk, h', Encapsulate(S, tk, h, keyid, hi, lo, m)) == Some(m)
  {
    var seed := Seed(S, tk, Addr2(h), hi, lo);
    var sealed := Seal(seed, MicKey(tk, h), MicHeader(h), m);
    TscOfIv(hi, lo, keyid, sealed);
    OpenExactly(seed, MicKey(tk, h), MicHeader(h), sealed, m);
  }

  /** Nothing else is accepted: the rest of the frame is the sealed payload for the counter in its IV. */
  lemma TkipAcceptsExactlySealed(S: bv16 -> bv16, tk: Octets, h: Octets, data: Octets, m: Octets)
    requires |tk| == 32 && IsHeader(h)
    ensures Decapsulate(S, tk, h, data) == Some(m) <==>
      (|data| >= 12 &&
       data[8..] == Seal(Seed(S, tk, Addr2(h), Tsc32(data), Tsc16(data)), MicKey(tk, h), MicHeader(h), m))
  {
    if |data| >= 12 {
      OpenExactly(Seed(S, tk, Addr2(h), Tsc32(data), Tsc16(data)), MicKey(tk, h), MicHeader(h), data[8..], m);
    }
  }

  // ---- tkip_decrypt

  method MixKey(S: bv16 -> bv16, tk: Octets, ta: Octets, iv32: bv32, iv16: bv16) returns (rc4key: Octets)
    requires |tk| == 32 && |ta| == 6
    ensures rc4key == Seed(S, tk, ta, iv32, iv16)
  {
    var ttak := new bv16[5];
    MixingPhase1(S, ttak, tk, ta, iv32);
    rc4key := MixingPhase2(S, tk, ttak, iv16);
  }

  method Verify(micKey: Octets, h: Octets, plain: Octets) returns (r: Option<nat>)
    requires IsHeader(h) && |micKey| == 8 && |plain| >= 4
    ensures r == None <==> CheckMic(micKey, MicHeader(h), plain) == None
    ensures r.Some? ==> r.value <= |plain| && CheckMic(micKey, MicHeader(h), plain) == Some(plain[..r.value])
  {
    var n := |plain| - 4;
    var ok := Wep.CheckIcv(plain);
    if !ok || n < 8 {
      return None;
    }
    var hdr := MichaelMicHdr(h);
    var mic := Michael.MichaelMic(micKey, hdr, plain[..n - 8]);
    if mic != plain[n - 8..n] {
      return None;
    }
    return Some(n - 8);
  }

  lemma OpenIs(rc4key: Octets, micKey: Octets, hdr: Octets, body: Octets, p: Octets)
    requires |rc4key| == 16 && |micKey| == 8 && |hdr| == 16 && |body| >= 4 && p == Rc4.Crypt(rc4key, body)
    ensures Open(rc4key, micKey, hdr, body) == CheckMic(micKey, hdr, p)
  {
  }

  /** The length of the payload in the buffer, if both checks pass. */
  method Accept(micKey: Octets, h: Octets, plain: array<bv8>, ghost payload: Option<Octets>) returns (r: Option<nat>)
    requires IsHeader(h) && |micKey| == 8 && plain.Length >= 4 && payload == CheckMic(micKey, MicHeader(h), plain[..])
    ensures r == None <==> payload == None
    ensures r.Some? ==> r.value <= plain.Length && payload == Some(plain[..r.value])
  {
    r := Verify(micKey, h, plain[..]);
    assert r.Some? ==> plain[..][..r.value] == plain[..r.value];
  }

  method DecryptBody(rc4key: Octets, micKey: Octets, h: Octets, body: Octets)
    returns (plain: array?<bv8>, decryptedLen: nat)
    requires |rc4key| == 16 && |micKey| == 8 && IsHeader(h) && |body| >= 4
    ensures plain == null <==> Open(rc4key, micKey, MicHeader(h), body) == None
    ensures plain != null ==>
      decryptedLen <= plain.Length && Open(rc4key, micKey, MicHeader(h), body) == Some(plain[..decryptedLen])
  {
    plain := new bv8[|body|];
    Wep.Decipher(rc4key, body, plain);
    OpenIs(rc4key, micKey, MicHeader(h), body, plain[..]);
    var r := Accept(micKey, h, plain, Open(rc4key, micKey, MicHeader(h), body));
    if r == None {
      return null, 0;
    }
    decryptedLen := r.value;
  }

  method TkipDecrypt(tk: Octets, h: Octets, data: Octets) returns (plain: array?<bv8>, decryptedLen: nat)
    requires |tk| == 32 && IsHeader(h)
    ensures plain == null <==> Decapsulate(TkipSbox.S, tk, h, data) == None
    ensures plain != null ==>
      decryptedLen <= plain.Length && Decapsulate(TkipSbox.S, tk, h, data) == Some(plain[..decryptedLen])
  {
    if |data| < 8 + 4 {
      return null, 0;
    }
    var rc4key := MixKey(TkipSbox.S, tk, Addr2(h), Tsc32(data), Tsc16(data));
    plain, decryptedLen := DecryptBody(rc4key, MicKey(tk, h), h, data[8..]);
  }

  // ---- tkip_get_pn

  function GetPn(data: Octets): (pn: Octets)
    requires |data| >= 8
    ensures |pn| == 6
  {
    [data[7], data[6], data[5], data[4], data[0], data[2]]
  }

  /** The packet number read from a frame determines the sequence counter it is deciphered with, and back. */
  lemma PnIsTsc(data: Octets, data': Octets)
    requires |data| >= 8 && |data'| >= 8
    ensures GetPn(data) == GetPn(data') <==> Tsc32(data) == Tsc32(data') && Tsc16(data) == Tsc16(data')
  {
    Le32Inverse(0, data[4..8]);
    Le32Inverse(0, data'[4..8]);
    if Tsc32(data) == Tsc32(data') && Tsc16(data) == Tsc16(data') {
      assert data[4..8] == data'[4..8];
      assert data[4..8][0] == data[4] && data[4..8][1] == data[5] && data[4..8][2] == data[6] && data[4..8][3] == data[7];
      assert data'[4..8][0] == data'[4] && data'[4..8][1] == data'[5];
      assert data'[4..8][2] == data'[6] && data'[4..8][3] == data'[7];
      Mk16Injective(data[0], data[2], data'[0], data'[2]);
    }
    if GetPn(data) == GetPn(data') {
      SamePn(data, data');
    }
  }

  lemma SamePn(data: Octets, data': Octets)
    requires |data| >= 8 && |data'| >= 8 && GetPn(data) == GetPn(data')
    ensures data[4..8] == data'[4..8] && data[0] == data'[0] && data[2] == data'[2]
  {
    var p, q := GetPn(data), GetPn(data');
    assert p[0] == q[0] && p[1] == q[1] && p[2] == q[2] && p[3] == q[3] && p[4] == q[4] && p[5] == q[5];
  }

  // ---- The fields by octets

  lemma DsBits(x: bv8, y: bv8)
    ensures ((x as bv16) | ((y as bv16) << 8)) & FC_TODS != 0 <==> y & 1 != 0
    ensures ((x as bv16) | ((y as bv16) << 8)) & FC_FROMDS != 0 <==> y & 2 != 0
  {
  }

  lemma DsOctet(h: Octets)
    requires |h| >= 2
    ensures ToDs(h) <==> h[1] & 1 != 0
    ensures FromDs(h) <==> h[1] & 2 != 0
  {
    assert h[..2][0] == h[0] && h[..2][1] == h[1];
    DsBits(h[0], h[1]);
  }

  lemma TwoBits(y: bv8)
    ensures y & 3 == 0 <==> y & 1 == 0 && y & 2 == 0
    ensures y & 3 == 1 <==> y & 1 != 0 && y & 2 == 0
    ensures y & 3 == 2 <==> y & 1 == 0 && y & 2 != 0
    ensures y & 3 == 3 <==> y & 1 != 0 && y & 2 != 0
  {
  }

  /**
   Destination and source for each of the four values of the direction bits, as section 7.2.2 of IEEE Std 802.11-2007
   has them, and the half of the Michael keys that belongs to the transmitter.
   */
  lemma AddressTable(h: Octets, tk: Octets)
    requires IsHeader(h) && |tk| == 32
    ensures h[1] & 3 == 3 ==> |h| >= 30
    ensures (Destination(h), Source(h)) ==
      if h[1] & 3 == 0 then (h[4..10], h[10..16]) else if h[1] & 3 == 1 then (h[16..22], h[10..16])
      else if h[1] & 3 == 2 then (h[4..10], h[16..22]) else (h[16..22], h[24..30])
    ensures MicKey(tk, h) == if h[1] & 2 != 0 then tk[16..24] else tk[24..32]
  {
    DsOctet(h);
    TwoBits(h[1]);
    DirectionBits(FrameControl(h));
  }

  /** The RC4 key begins with the three octets of the IV that are sent in the clear. */
  lemma SeedBeginsWithIv(S: bv16 -> bv16, tk: Octets, ta: Octets, tsc32: bv32, tsc16: bv16, keyid: bv8)
    requires |tk| >= 16 && |ta| == 6
    ensures Seed(S, tk, ta, tsc32, tsc16)[..3] == Iv(tsc32, tsc16, keyid)[..3]
  {
    HeadOfSeed(tk, Phase2(S, tk, Phase1(S, tk, ta, tsc32), tsc16), tsc16);
    var iv := Iv(tsc32, tsc16, keyid);
    assert iv[..3] == [iv[0], iv[1], iv[2]];
  }

  lemma HeadOfSeed(tk: Octets, ppk: Ring, iv16: bv16)
    requires |tk| >= 16 && |ppk| == 6
    ensures SeedOf(tk, ppk, iv16)[..3] == [Hi8(iv16), (Hi8(iv16) | 0x20) & 0x7f, Lo8(iv16)]
  {
  }

  /** The packet number that is read from a frame is the one it was sent with, most significant octet first. */
  lemma PnOfIv(pn: Octets, keyid: bv8, c: Octets)
    requires |pn| == 6
    ensures GetPn(Iv(Le32([pn[3], pn[2], pn[1], pn[0]]), Mk16(pn[4], pn[5]), keyid) + c) == pn
  {
    var hi: Octets := [pn[3], pn[2], pn[1], pn[0]];
    var data := Iv(Le32(hi), Mk16(pn[4], pn[5]), keyid) + c;
    Le32Inverse(0, hi);
    assert data[4..8] == hi;
    assert data[4] == data[4..8][0] && data[5] == data[4..8][1] && data[6] == data[4..8][2] && data[7] == data[4..8][3];
    HalvesOfMk16(pn[4], pn[5]);
  }

  lemma HalvesOfMk16(a: bv8, b: bv8)
    ensures Hi8(Mk16(a, b)) == a && Lo8(Mk16(a, b)) == b
  {
  }
}
