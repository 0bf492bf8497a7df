/**
 Management frames protected by their sender are accepted and take effect: CCMP under the key of the station,
 and BIP as hostap08/wlantest/inject.c adds it under the IGTK of the BSS.
 */
module RxMgmtProtected {
  import opened Octets
  import opened Ieee80211
  import opened Wrappers
  import opened Ccm
  import opened Ccmp
  import CcmpFrames
  import Inject
  import opened PacketNumber
  import opened RxMgmt
  import opened RxMgmtRuns
  import opened RxMgmtHistory

  // ---- CCMP

  /** A frame that is sent to one station, protected with its key. */
  ghost function Sealed(env: Env, ptk: Octets, plain: Octets, pn: Octets): (f: Octets)
    requires |plain| >= 24 && |pn| == 6
    ensures |f| == |plain| + 16
  {
    CcmpFrames.Encapsulate(env.aes(ptk), plain, 24, pn, 0)
  }

  lemma SealedHeader(env: Env, ptk: Octets, plain: Octets, pn: Octets)
    requires |plain| >= 24 && |pn| == 6
    ensures var f := Sealed(env, ptk, plain, pn);
      && FrameControl(f) == FrameControl(plain) | FC_ISWEP && f[2..24] == plain[2..24] && f[24..32] == Iv(pn, 0)
  {
    var f, h := Sealed(env, ptk, plain, pn), CcmpFrames.SentHeader(plain, 24, pn, 0);
    assert f[..32] == h;
    Inject.SentFrameControl(plain, 24, pn, 0);
    Inject.SentRest(plain, 24, pn, 0);
    assert f[..2] == h[..2] && f[2..24] == h[2..24] && f[24..32] == h[24..32];
    assert h[24..32] == Iv(pn, 0);
  }

  lemma ProtectedBits(fc: bv16)
    ensures Subtype(fc | FC_ISWEP) == Subtype(fc) && (fc | FC_ISWEP) & FC_ISWEP != 0
  {
  }

  lemma SameKind(f: Octets, plain: Octets)
    requires |f| >= 24 && |plain| >= 24 && FrameControl(f) == FrameControl(plain) | FC_ISWEP
    ensures KindOf(f) == KindOf(plain) && IsProtected(f)
  {
    ProtectedBits(FrameControl(plain));
  }

  lemma SameAddresses(f: Octets, plain: Octets)
    requires |f| >= 24 && |plain| >= 24 && f[2..24] == plain[2..24]
    ensures Da(f) == Da(plain) && Sa(f) == Sa(plain) && Bssid(f) == Bssid(plain)
  {
    SubSlice(f, 2, 24, 2, 8);
    SubSlice(plain, 2, 24, 2, 8);
    SubSlice(f, 2, 24, 8, 14);
    SubSlice(plain, 2, 24, 8, 14);
    SubSlice(f, 2, 24, 14, 20);
    SubSlice(plain, 2, 24, 14, 20);
  }

  lemma IvAt(f: Octets, pn: Octets)
    requires |f| >= 32 && |pn| == 6 && f[24..32] == Iv(pn, 0)
    ensures f[27] & 0x20 != 0 && GetPn(f[24..]) == pn
  {
    assert f[27] == f[24..32][3];
    assert f[24..] == Iv(pn, 0) + f[32..];
    GetPnOfIv(pn, 0, f[32..]);
  }

  lemma SealedIs(env: Env, ptk: Octets, plain: Octets, pn: Octets)
    requires |plain| >= 24 && |pn| == 6
    ensures var f := Sealed(env, ptk, plain, pn);
      && KindOf(f) == KindOf(plain) && IsProtected(f) && f[27] & 0x20 != 0 && GetPn(f[24..]) == pn
      && Da(f) == Da(plain) && Sa(f) == Sa(plain) && Bssid(f) == Bssid(plain)
  {
    var f := Sealed(env, ptk, plain, pn);
    SealedHeader(env, ptk, plain, pn);
    SameKind(f, plain);
    SameAddresses(f, plain);
    IvAt(f, pn);
  }

  /** A robust frame to or from a station, protected with its known key, is valid and read in the clear. */
  lemma SealedIsAccepted(env: Env, v: View, plain: Octets, pn: Octets, ptk: Octets)
    requires Total(v) && |plain| >= 24 && |pn| == 6 && IsRobust(KindOf(plain))
    requires !IsGroup(Da(plain)) && !IsGroup(Bssid(plain)) && !IsGroup(CheckedPeer(plain))
    requires CheckedSta(v, plain).ptk == Some(ptk)
    ensures var f := Sealed(env, ptk, plain, pn);
      && IsValid(env, v, f) && Clear(env, v, f) == f[..24] + plain[24..]
      && AfterCheck(env, v, f) == SetSta(v, Bssid(plain), CheckedPeer(plain),
           if Da(plain) == Bssid(plain) then CheckedSta(v, plain).(rscToDs := pn)
           else CheckedSta(v, plain).(rscFromDs := pn))
  {
    SealedIs(env, ptk, plain, pn);
    CcmpFrames.CcmpRoundTripUnchanged(env.aes(ptk), plain, 24, pn, 0);
  }

  /** Nothing else is accepted: the body is the CCM encryption of what comes out of it, for the packet number in it. */
  lemma DecryptedExactly(env: Env, s: Sta, f: Octets, m: Octets)
    requires |f| >= 24
    ensures Decrypted(env, s, f) == Some(f[..24] + m) <==>
      && !IsGroup(Bssid(f)) && !IsGroup(CheckedPeer(f)) && s.ptk.Some? && |f| >= 40 && f[27] & 0x20 != 0
      && f[32..] == Encrypt(env.aes(s.ptk.value), CCMP_PARAMS, Nonce(f, GetPn(f[24..])), Aad(f), m)
  {
    if s.ptk.Some? && |f| >= 40 {
      assert f[24..][8..] == f[32..];
      CcmpFrames.CcmpAcceptsExactlyEncryptions(env.aes(s.ptk.value), f, f[24..], m);
      var r := Decrypted(env, s, f);
      if r == Some(f[..24] + m) {
        assert r.value[24..] == m;
      }
    }
  }

  /** A Deauthentication frame with a reason code, protected with the key of a station, takes it to State 1. */
  lemma SealedDeauthenticates(env: Env, v: View, plain: Octets, pn: Octets, ptk: Octets, b: Addr, a: Addr)
    requires Total(v) && |plain| >= 26 && |pn| == 6 && KindOf(plain) == Deauth && Names(plain, b, a)
    requires !IsGroup(Da(plain)) && CheckedPeer(plain) == a && v.sta[(b, a)].ptk == Some(ptk)
    ensures Step(env, v, Sealed(env, ptk, plain, pn)).sta[(b, a)].state == State1
  {
    var f := Sealed(env, ptk, plain, pn);
    SealedIs(env, ptk, plain, pn);
    SealedIsAccepted(env, v, plain, pn, ptk);
    SameConcerns(f, plain, b, a);
    StateAfterLeave(env, v, f, b, a);
  }

  // ---- BIP

  function BipAad(f: Octets): (r: Octets)
    requires |f| >= 24
    ensures |r| == 20
  {
    PutLe16(FrameControl(f) & !(FC_RETRY | FC_PWRMGT | FC_MOREDATA)) + f[4..22]
  }

  /** The frame with its management MIC element, the MIC still to come. */
  function WithMmie(frame: Octets, keyid: bv16, ipn: Octets): (r: Octets)
    requires |ipn| == 6
    ensures |r| == |frame| + 10
  {
    frame + ([EID_MMIE, 16] + PutLe16(keyid) + ipn)
  }

  function BipMic(env: Env, key: Octets, frame: Octets, keyid: bv16, ipn: Octets): Octets
    requires |frame| >= 24 && |ipn| == 6
  {
    env.cmac(key, BipAad(frame) + (WithMmie(frame, keyid, ipn)[24..] + Zeros(8)))
  }

  function BipSealed(env: Env, key: Octets, frame: Octets, keyid: bv16, ipn: Octets): (f: Octets)
    requires |frame| >= 24 && |ipn| == 6 && |BipMic(env, key, frame, keyid, ipn)| >= 8
    ensures |f| == |frame| + 18
  {
    WithMmie(frame, keyid, ipn) + BipMic(env, key, frame, keyid, ipn)[..8]
  }

  lemma MmieAt(f: Octets, frame: Octets, keyid: bv16, ipn: Octets, mic: Octets)
    requires |frame| >= 24 && |ipn| == 6 && |mic| == 8 && f == WithMmie(frame, keyid, ipn) + mic
    ensures f[..24] == frame[..24] && f[24..|f| - 8] == WithMmie(frame, keyid, ipn)[24..] && f[|f| - 8..] == mic
    ensures HasMmie(f) && MmieIpn(f) == ipn && f[|f| - 16..|f| - 14] == PutLe16(keyid)
  {
    var n := |frame|;
    var m := [EID_MMIE, 16] + PutLe16(keyid) + ipn;
    assert f[n..n + 10] == m;
    assert f[n] == m[0] && f[n + 1] == m[1];
    SubSlice(f, n, n + 10, 4, 10);
    SubSlice(f, n, n + 10, 2, 4);
    assert m[4..10] == ipn && m[2..4] == PutLe16(keyid);
    assert f[24..|f| - 8] == WithMmie(frame, keyid, ipn)[24..];
  }

  lemma KeyIdMask(keyid: bv16)
    requires keyid == 4 || keyid == 5
    ensures keyid & 0x0fff == keyid
  {
  }

  lemma SameHeader(f: Octets, g: Octets)
    requires |f| >= 24 && |g| >= 24 && f[..24] == g[..24]
    ensures FrameControl(f) == FrameControl(g) && f[4..22] == g[4..22] && KindOf(f) == KindOf(g)
    ensures Da(f) == Da(g) && Sa(f) == Sa(g) && Bssid(f) == Bssid(g)
  {
    SubSlice(f, 0, 24, 0, 2);
    SubSlice(g, 0, 24, 0, 2);
    SubSlice(f, 0, 24, 4, 22);
    SubSlice(g, 0, 24, 4, 22);
    SubSlice(f, 0, 24, 4, 10);
    SubSlice(g, 0, 24, 4, 10);
    SubSlice(f, 0, 24, 10, 16);
    SubSlice(g, 0, 24, 10, 16);
    SubSlice(f, 0, 24, 16, 22);
    SubSlice(g, 0, 24, 16, 22);
  }

  lemma BipSealedIs(env: Env, key: Octets, frame: Octets, keyid: bv16, ipn: Octets)
    requires |frame| >= 24 && |ipn| == 6 && (keyid == 4 || keyid == 5) && |BipMic(env, key, frame, keyid, ipn)| >= 8
    ensures var f := BipSealed(env, key, frame, keyid, ipn);
      && f[..24] == frame[..24] && HasMmie(f) && MmieIpn(f) == ipn && MmieKeyId(f) == keyid
      && MmieVerifies(env, key, f)
  {
    var f, mic := BipSealed(env, key, frame, keyid, ipn), BipMic(env, key, frame, keyid, ipn);
    MmieAt(f, frame, keyid, ipn, mic[..8]);
    SameHeader(f, frame);
    Le16Inverse(keyid, PutLe16(keyid));
    KeyIdMask(keyid);
    assert BipData(f) == BipAad(frame) + (WithMmie(frame, keyid, ipn)[24..] + Zeros(8));
  }

  /**
   A robust group-addressed frame with a MIC element under a known IGTK verifies, and its packet number is the one
   that is then remembered for that key.
   */
  lemma BipSealedIsAccepted(env: Env, v: View, frame: Octets, keyid: bv16, ipn: Octets, igtk: Igtk)
    requires Total(v) && |frame| >= 24 && |ipn| == 6 && (keyid == 4 || keyid == 5)
    requires IsRobust(KindOf(frame)) && !IsPublicAction(frame) && IsGroup(Da(frame)) && !IsGroup(Bssid(frame))
    requires IgtkFor(v.bss[Bssid(frame)], keyid) == Some(igtk) && |BipMic(env, igtk.key, frame, keyid, ipn)| >= 8
    ensures var f := BipSealed(env, igtk.key, frame, keyid, ipn);
      && CheckBip(env, v.bss[Bssid(frame)], f) == BipGood(keyid) && IsValid(env, v, f) && Clear(env, v, f) == f
      && IgtkFor(AfterCheck(env, v, f).bss[Bssid(frame)], keyid) == Some(Igtk(igtk.key, ipn))
  {
    var f := BipSealed(env, igtk.key, frame, keyid, ipn);
    BipSealedIs(env, igtk.key, frame, keyid, ipn);
    SameHeader(f, frame);
    if |frame| > 24 {
      assert f[24] == frame[24];
    } else {
      assert f[24] == EID_MMIE;
    }
  }

  /** The key id field as it is, of which twelve bits count. */
  function KeyIdField(f: Octets): bv16
    requires |f| >= 42
  {
    Le16(f[|f| - 16..|f| - 14])
  }

  lemma MmieParts(f: Octets)
    requires |f| >= 42
    ensures var n := |f| - 18;
      HasMmie(f) <==> f == WithMmie(f[..n], KeyIdField(f), f[n + 4..n + 10]) + f[n + 10..]
  {
    var n := |f| - 18;
    var m := f[n..n + 10];
    Le16Inverse(0, f[n + 2..n + 4]);
    assert f == f[..n] + m + f[n + 10..];
    assert m == [m[0], m[1]] + f[n + 2..n + 4] + f[n + 4..n + 10];
    MmieOnly(f, n, [EID_MMIE, 16] + PutLe16(KeyIdField(f)) + f[n + 4..n + 10]);
  }

  lemma MmieOnly(f: Octets, n: nat, e: Octets)
    requires n + 18 == |f| && |e| == 10 && e[2..] == f[n + 2..n + 10] && e[0] == EID_MMIE && e[1] == 16
    ensures f[n] == EID_MMIE && f[n + 1] == 16 <==> f == f[..n] + e + f[n + 10..]
  {
    var g := f[..n] + e + f[n + 10..];
    assert g[n] == e[0] && g[n + 1] == e[1];
    if f[n] == EID_MMIE && f[n + 1] == 16 {
      forall k | 0 <= k < |f| ensures f[k] == g[k] {
        if n + 2 <= k < n + 10 {
          assert e[2..][k - n - 2] == f[n + 2..n + 10][k - n - 2];
        }
      }
    }
  }

  lemma MicPart(env: Env, key: Octets, f: Octets)
    requires |f| >= 42 && HasMmie(f)
    ensures var n := |f| - 18;
      MmieVerifies(env, key, f) <==>
        |BipMic(env, key, f[..n], KeyIdField(f), f[n + 4..n + 10])| >= 8
        && f == BipSealed(env, key, f[..n], KeyIdField(f), f[n + 4..n + 10])
  {
    var n := |f| - 18;
    var frame, keyid, ipn := f[..n], KeyIdField(f), f[n + 4..n + 10];
    MmieParts(f);
    assert f[..24] == frame[..24];
    SameHeader(f, frame);
    var w := WithMmie(frame, keyid, ipn);
    assert f == w + f[n + 10..];
    assert f[24..|f| - 8] == w[24..];
    assert BipData(f) == BipAad(frame) + (w[24..] + Zeros(8));
    LastPart(f, w, f[n + 10..], BipMic(env, key, frame, keyid, ipn));
  }

  lemma LastPart(f: Octets, w: Octets, mic: Octets, full: Octets)
    requires f == w + mic && |mic| == 8
    ensures |full| >= 8 ==> (mic == full[..8] <==> f == w + full[..8])
  {
    if |full| >= 8 && f == w + full[..8] {
      assert f[|w|..] == full[..8];
    }
  }

  /** BIP accepts exactly the frames that end in the MIC element of their own content under the key that they name. */
  lemma BipGoodIff(env: Env, b: Bss, f: Octets)
    requires |f| >= 24
    ensures CheckBip(env, b, f).BipGood? <==>
      && |f| >= 42 && !IsPublicAction(f) && !IsGroup(Bssid(f)) && HasMmie(f)
      && var n, key := |f| - 18, IgtkFor(b, KeyIdField(f) & 0x0fff);
         && key.Some? && |BipMic(env, key.value.key, f[..n], KeyIdField(f), f[n + 4..n + 10])| >= 8
         && f == BipSealed(env, key.value.key, f[..n], KeyIdField(f), f[n + 4..n + 10])
  {
    if |f| >= 42 && HasMmie(f) && IgtkFor(b, MmieKeyId(f)).Some? {
      MicPart(env, IgtkFor(b, MmieKeyId(f)).value.key, f);
    }
  }

  /** A broadcast Deauthentication protected so takes every station of the BSS to State 1. */
  lemma BipSealedDeauthenticates(env: Env, v: View, frame: Octets, keyid: bv16, ipn: Octets, igtk: Igtk,
      b: Addr, a: Addr)
    requires Total(v) && |frame| >= 26 && |ipn| == 6 && (keyid == 4 || keyid == 5) && KindOf(frame) == Deauth
    requires ToAll(frame, b)
    requires IgtkFor(v.bss[b], keyid) == Some(igtk) && |BipMic(env, igtk.key, frame, keyid, ipn)| >= 8
    ensures Step(env, v, BipSealed(env, igtk.key, frame, keyid, ipn)).sta[(b, a)].state == State1
  {
    var f := BipSealed(env, igtk.key, frame, keyid, ipn);
    ConcernsIs(frame, b, a);
    BroadcastIsGroup(Da(frame));
    BipSealedIs(env, igtk.key, frame, keyid, ipn);
    SameHeader(f, frame);
    BipSealedIsAccepted(env, v, frame, keyid, ipn, igtk);
    SameConcerns(f, frame, b, a);
    StateAfterLeave(env, v, f, b, a);
  }

  // ---- wlantest_inject_bip

  method NextIpn(ipn: Octets) returns (next: Octets)
    requires |ipn| == 6
    ensures next == Inc(ipn)
  {
    var a := new bv8[6](i requires 0 <= i < 6 => ipn[i]);
    assert a[..] == ipn;
    IncByteArray(a);
    next := a[..];
  }

  /** The next packet number is used up even if no MIC can be computed. */
  method InjectBip(env: Env, bss: Bss, idx: bv16, frame: Octets) returns (bss': Bss, sent: Option<Octets>)
    requires |frame| >= 24 && (idx == 4 || idx == 5) && (IgtkFor(bss, idx).Some? ==> |IgtkFor(bss, idx).value.ipn| == 6)
    ensures IgtkFor(bss, idx) == None ==> bss' == bss && sent == None
    ensures IgtkFor(bss, idx).Some? ==>
      var igtk := IgtkFor(bss, idx).value;
      && bss' == SetIpn(bss, idx, Inc(igtk.ipn))
      && sent == if |BipMic(env, igtk.key, frame, idx, Inc(igtk.ipn))| < 8 then None
                 else Some(BipSealed(env, igtk.key, frame, idx, Inc(igtk.ipn)))
  {
    var k := if idx == 4 then bss.igtk4 else bss.igtk5;
    if k == None {
      return bss, None;
    }
    var ipn := NextIpn(k.value.ipn);
    bss' := if idx == 4 then bss.(igtk4 := Some(k.value.(ipn := ipn))) else bss.(igtk5 := Some(k.value.(ipn := ipn)));
    var prot := frame + ([EID_MMIE, 16] + PutLe16(idx) + ipn);
    var fc := FrameControl(frame) & !(FC_RETRY | FC_PWRMGT | FC_MOREDATA);
    var buf := PutLe16(fc) + frame[4..22] + (prot[24..] + Zeros(8));
    var mic := env.cmac(k.value.key, buf);
    if |mic| < 8 {
      return bss', None;
    }
    sent := Some(prot + mic[..8]);
  }

  /** What is injected in a BSS is accepted there, and leaves its packet number with the key, as injecting it did. */
  lemma InjectedIsAccepted(env: Env, v: View, bss: Bss, idx: bv16, frame: Octets, sent: Octets, igtk: Igtk)
    requires Total(v) && |frame| >= 24 && (idx == 4 || idx == 5) && |igtk.ipn| == 6
    requires IsRobust(KindOf(frame)) && !IsPublicAction(frame) && IsGroup(Da(frame)) && !IsGroup(Bssid(frame))
    requires v.bss[Bssid(frame)] == bss && IgtkFor(bss, idx) == Some(igtk)
    requires |BipMic(env, igtk.key, frame, idx, Inc(igtk.ipn))| >= 8
    requires sent == BipSealed(env, igtk.key, frame, idx, Inc(igtk.ipn))
    ensures IsValid(env, v, sent) && AfterCheck(env, v, sent).bss[Bssid(frame)] == SetIpn(bss, idx, Inc(igtk.ipn))
  {
    BipSealedIs(env, igtk.key, frame, idx, Inc(igtk.ipn));
    SameHeader(sent, frame);
    BipSealedIsAccepted(env, v, frame, idx, Inc(igtk.ipn), igtk);
  }

  // ---- No protection

  lemma ProtectedByOctet(f: Octets)
    requires |f| >= 24
    ensures IsProtected(f) <==> f[1] & 0x40 != 0
  {
    assert f[..2][0] == f[0] && f[..2][1] == f[1];
    ProtectedOctet(f[0], f[1]);
  }

  lemma ProtectedOctet(x: bv8, y: bv8)
    ensures ((x as bv16) | ((y as bv16) << 8)) & FC_ISWEP != 0 <==> y & 0x40 != 0
  {
  }

  /**
   A robust frame to one station without protection is refused exactly if the station's capabilities have bit 7
   set and it is in State 3 or the frame is an Action frame, unless that is a public one.
   */
  lemma UnprotectedRefusedIff(env: Env, v: View, f: Octets, b: Addr, a: Addr)
    requires Total(v) && |f| >= 24 && IsRobust(KindOf(f)) && f[1] & 0x40 == 0
    requires f[16..22] == b && !IsGroup(b) && !IsGroup(a) && (if f[4..10] == b then f[10..16] == a else f[4..10] == a)
    ensures !IsValid(env, v, f) <==>
      && v.sta[(b, a)].rsnCapab & 0x80 != 0
      && if KindOf(f) == Action then |f| == 24 || f[24] != 4 else v.sta[(b, a)].state == State3
  {
    ProtectedByOctet(f);
  }
}
