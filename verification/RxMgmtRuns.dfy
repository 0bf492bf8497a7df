/** What runs of captured management frames can and cannot do to the tracked association state. */
module RxMgmtRuns {
  import opened Octets
  import opened Ieee80211
  import opened Wrappers
  import opened RxMgmt

  predicate IsLeave(f: Octets) {
    |f| >= 24 && (KindOf(f) == Deauth || KindOf(f) == Disassoc)
  }

  ghost predicate AllComplete(fs: seq<Octets>) {
    forall k :: 0 <= k < |fs| ==> |fs[k]| < 24 || Complete(fs[k])
  }

  ghost function Run(env: Env, v: View, fs: seq<Octets>): (r: View)
    requires Total(v) && AllComplete(fs)
    ensures Total(r)
    decreases |fs|
  {
    if fs == [] then v else Run(env, Step(env, v, fs[0]), fs[1..])
  }

  /** A Deauthentication or Disassociation frame that is judged invalid when it arrives. */
  ghost predicate Rejected(env: Env, v: View, f: Octets)
    requires Total(v)
  {
    IsLeave(f) && !IsValid(env, v, f)
  }

  /** The run without the rejected frames. */
  ghost function Accepted(env: Env, v: View, fs: seq<Octets>): (r: seq<Octets>)
    requires Total(v) && AllComplete(fs)
    ensures AllComplete(r)
    decreases |fs|
  {
    if fs == [] then []
    else
      var rest := Accepted(env, Step(env, v, fs[0]), fs[1..]);
      if Rejected(env, v, fs[0]) then rest else [fs[0]] + rest
  }

  /** A rejected frame leaves no trace, not even a packet number. */
  lemma RejectedIsIgnored(env: Env, v: View, f: Octets)
    requires Total(v) && Rejected(env, v, f)
    ensures Step(env, v, f) == v
  {
    RejectedRecordsNothing(env, v, f);
  }

  lemma RejectedRecordsNothing(env: Env, v: View, f: Octets)
    requires Total(v) && Rejected(env, v, f)
    ensures AfterCheck(env, v, f) == v
  {
  }

  /**
   Over any sequence of frames, what is known about every station and BSS in the end is the same as after
   deleting every Deauthentication and Disassociation frame that was judged invalid.
   */
  lemma {:induction false} RejectedFramesDoNotMatter(env: Env, v: View, fs: seq<Octets>)
    requires Total(v) && AllComplete(fs)
    ensures Run(env, v, fs) == Run(env, v, Accepted(env, v, fs))
    decreases |fs|
  {
    if fs != [] {
      var f, rest := fs[0], fs[1..];
      RejectedFramesDoNotMatter(env, Step(env, v, f), rest);
      if Rejected(env, v, f) {
        RejectedIsIgnored(env, v, f);
      } else {
        assert ([f] + Accepted(env, Step(env, v, f), rest))[1..] == Accepted(env, Step(env, v, f), rest);
      }
    }
  }

  /** In the shortened run nothing is rejected any more. */
  lemma {:induction false} AcceptedAreAllValid(env: Env, v: View, fs: seq<Octets>)
    requires Total(v) && AllComplete(fs)
    ensures Accepted(env, v, Accepted(env, v, fs)) == Accepted(env, v, fs)
    decreases |fs|
  {
    if fs != [] {
      var f, rest := fs[0], fs[1..];
      AcceptedAreAllValid(env, Step(env, v, f), rest);
      if Rejected(env, v, f) {
        RejectedIsIgnored(env, v, f);
      } else {
        assert ([f] + Accepted(env, Step(env, v, f), rest))[1..] == Accepted(env, Step(env, v, f), rest);
      }
    }
  }

  lemma CheckKeepsState(env: Env, v: View, f: Octets, b: Addr, a: Addr)
    requires Total(v) && |f| >= 24
    ensures AfterCheck(env, v, f).sta[(b, a)].state == v.sta[(b, a)].state
  {
  }

  lemma OnlyLeavingLowersState(env: Env, v: View, k: Kind, f: Octets, valid: bool, b: Addr, a: Addr)
    requires Total(v) && |f| >= 24 && (k == Beacon || k == ProbeResp ==> |f| >= 36)
    requires v.sta[(b, a)].state == State3 && Handle(env, v, k, f, valid).sta[(b, a)].state != State3
    ensures (k == Deauth || k == Disassoc) && valid && Bssid(f) == b && (Peer(f) == a || IsBroadcast(Da(f)))
  {
  }

  lemma ClearKeepsHeader(env: Env, v: View, f: Octets)
    requires Total(v) && |f| >= 24
    ensures var g := Clear(env, v, f); Da(g) == Da(f) && Sa(g) == Sa(f) && Bssid(g) == Bssid(f)
  {
    var g := Clear(env, v, f);
    if g != f {
      assert g[..24] == f[..24];
      SubSlice(g, 0, 24, 4, 10);
      SubSlice(f, 0, 24, 4, 10);
      SubSlice(g, 0, 24, 10, 16);
      SubSlice(f, 0, 24, 10, 16);
      SubSlice(g, 0, 24, 16, 22);
      SubSlice(f, 0, 24, 16, 22);
    }
  }

  /** Checks and handlers look at one station, unless the frame is neither from nor to its BSSID. */
  lemma PeersAgree(f: Octets)
    requires |f| >= 24
    ensures Peer(f) == CheckedPeer(f) <==> Sa(f) == Bssid(f) || Da(f) == Bssid(f) || Sa(f) == Da(f)
  {
  }

  lemma BroadcastIsGroup(a: Addr)
    ensures IsBroadcast(a) ==> IsGroup(a)
  {
  }

  // ---- How a station with protected management frames leaves State 3

  /** The frame is about station a of BSS b: as its peer, or as one of all. */
  predicate AimedAt(f: Octets, b: Addr, a: Addr)
    requires |f| >= 24
  {
    Bssid(f) == b && (Peer(f) == a || (IsGroup(Peer(f)) && IsBroadcast(Da(f))))
  }

  /** The reason code is there, also after decryption. */
  predicate LongEnough(f: Octets)
    requires |f| >= 24
  {
    |f| >= if !IsGroup(Da(f)) && IsProtected(f) then 26 + 16 else 26
  }

  /** The frame carries proof of a key: BIP under a known IGTK, or CCMP under the PTK of this station. */
  ghost predicate Proven(env: Env, v: View, b: Addr, a: Addr, f: Octets)
    requires Total(v) && |f| >= 24
  {
    if IsGroup(Da(f)) then CheckBip(env, v.bss[b], f).BipGood?
    else CheckedPeer(f) == a && IsProtected(f) && Decrypted(env, v.sta[(b, a)], f).Some?
  }

  /**
   The checks let the frame through without proof about this station: BIP has no key to check with, or all
   three addresses differ and only the station at the destination address was looked at.
   */
  ghost predicate Unchecked(env: Env, v: View, b: Addr, f: Octets)
    requires Total(v) && |f| >= 24
  {
    if IsGroup(Da(f)) then
      if HasMmie(f) then IgtkFor(v.bss[b], MmieKeyId(f)) == None else !Mfpc(v.bss[b].rsnCapab)
    else
      && Sa(f) != b && Da(f) != b && Sa(f) != Da(f)
      && if IsProtected(f) then Decrypted(env, v.sta[(b, Da(f))], f).Some? else !LacksProtection(v.sta[(b, Da(f))], f)
  }

  lemma ClearIsLongEnough(env: Env, v: View, f: Octets)
    requires Total(v) && IsLeave(f) && IsValid(env, v, f)
    ensures |Clear(env, v, f)| >= 26 <==> LongEnough(f)
  {
  }

  lemma LeaveLowersState(v: View, f: Octets, valid: bool, change: Sta -> Sta, b: Addr, a: Addr)
    requires Total(v) && |f| >= 24 && !IsGroup(a) && !IsGroup(b) && change(v.sta[(b, a)]) != v.sta[(b, a)]
    ensures Leave(v, f, valid, change).sta[(b, a)] ==
      if valid && |f| >= 26 && AimedAt(f, b, a) then change(v.sta[(b, a)]) else v.sta[(b, a)]
  {
  }

  /** For frames aimed at a protected station in State 3, being judged valid is being proven or unchecked. */
  lemma ValidMeans(env: Env, v: View, f: Octets, b: Addr, a: Addr)
    requires Total(v) && IsLeave(f) && AimedAt(f, b, a) && !IsGroup(a) && !IsGroup(b)
    requires v.sta[(b, a)].state == State3 && Mfpc(v.sta[(b, a)].rsnCapab)
    ensures IsValid(env, v, f) <==> Proven(env, v, b, a, f) || Unchecked(env, v, b, f)
  {
    BroadcastIsGroup(Da(f));
    PeersAgree(f);
  }

  /**
   A station in State 3 that protects management frames leaves State 3 exactly by a long enough Deauthentication
   or Disassociation frame aimed at it that is proven or unchecked.
   */
  lemma LeavesState3Iff(env: Env, v: View, f: Octets, b: Addr, a: Addr)
    requires Total(v) && |f| >= 24 && Complete(f) && !IsGroup(a) && !IsGroup(b)
    requires v.sta[(b, a)].state == State3 && Mfpc(v.sta[(b, a)].rsnCapab)
    ensures Step(env, v, f).sta[(b, a)].state != State3 <==>
      (IsLeave(f) && AimedAt(f, b, a) && LongEnough(f) && (Proven(env, v, b, a, f) || Unchecked(env, v, b, f)))
  {
    if IsLeave(f) {
      LeaveFrameIff(env, v, f, b, a);
    } else if Step(env, v, f).sta[(b, a)].state != State3 {
      CheckKeepsState(env, v, f, b, a);
      OnlyLeavingLowersState(env, AfterCheck(env, v, f), KindOf(f), Clear(env, v, f), IsValid(env, v, f), b, a);
    }
  }

  lemma LeaveFrameIff(env: Env, v: View, f: Octets, b: Addr, a: Addr)
    requires Total(v) && IsLeave(f) && !IsGroup(a) && !IsGroup(b)
    requires v.sta[(b, a)].state == State3 && Mfpc(v.sta[(b, a)].rsnCapab)
    ensures Step(env, v, f).sta[(b, a)].state != State3 <==>
      (AimedAt(f, b, a) && LongEnough(f) && (Proven(env, v, b, a, f) || Unchecked(env, v, b, f)))
  {
    var w, g, valid := AfterCheck(env, v, f), Clear(env, v, f), IsValid(env, v, f);
    CheckKeepsState(env, v, f, b, a);
    ClearKeepsHeader(env, v, f);
    if AimedAt(f, b, a) {
      ValidMeans(env, v, f, b, a);
    }
    if valid {
      ClearIsLongEnough(env, v, f);
    }
    LeaveLowersState(w, g, valid, if KindOf(f) == Deauth then Deauthenticated else Disassociated, b, a);
  }

  // ---- Two frames that are let through without proof

  const AP: Addr := [0x02, 0, 0, 0, 0, 0x01]
  const CLIENT: Addr := [0x02, 0, 0, 0, 0, 0x02]
  const OTHER: Addr := [0x02, 0, 0, 0, 0, 0x03]
  const EVERYONE: Addr := [0xff, 0xff, 0xff, 0xff, 0xff, 0xff]

  /** A Deauthentication frame without protection, with whatever follows its header. */
  function PlainDeauth(da: Addr, sa: Addr, bssid: Addr, body: Octets): (f: Octets)
    requires |da| == 6 && |sa| == 6 && |bssid| == 6
    ensures |f| == 24 + |body|
  {
    [0xc0, 0, 0, 0] + da + sa + bssid + [0, 0] + body
  }

  lemma PlainDeauthIs(da: Addr, sa: Addr, bssid: Addr, body: Octets)
    requires |da| == 6 && |sa| == 6 && |bssid| == 6
    ensures var f := PlainDeauth(da, sa, bssid, body);
      && IsLeave(f) && !IsProtected(f) && Da(f) == da && Sa(f) == sa && Bssid(f) == bssid && f[24..] == body
  {
    var f := PlainDeauth(da, sa, bssid, body);
    assert f[..2] == [0xc0, 0];
    DeauthBits(f);
  }

  lemma DeauthBits(f: Octets)
    requires |f| >= 24 && f[..2] == [0xc0, 0]
    ensures KindOf(f) == Deauth && !IsProtected(f)
  {
    assert FrameControl(f) == 0x00c0;
  }

  /** Everything as new, except for one protected station in State 3 and what its BSS advertises. */
  ghost function Example(bss: Bss): (v: View)
    ensures Total(v)
  {
    SetSta(View(imap b: Addr, a: Addr :: (b, a) := NEW_STA, imap b: Addr :: Everywhere(b, bss)), AP, CLIENT,
           NEW_STA.(state := State3, rsnCapab := 0x0080))
  }

  function Everywhere<T>(b: Addr, x: T): T { x }

  lemma ExampleIs(bss: Bss)
    ensures var v := Example(bss);
      && v.sta[(AP, CLIENT)].state == State3 && Mfpc(v.sta[(AP, CLIENT)].rsnCapab)
      && v.sta[(AP, OTHER)] == NEW_STA && v.bss[AP] == bss
    ensures !IsGroup(AP) && !IsGroup(CLIENT) && !IsGroup(OTHER) && IsBroadcast(EVERYONE) && IsGroup(EVERYONE)
  {
  }

  /** A management MIC element with key id 0. */
  const MMIE_KEY0: Octets := [76, 16, 0, 0, 0, 0, 0, 0, 0, 0, 0, 0, 0, 0, 0, 0, 0, 0]

  lemma Key0Has(f: Octets)
    requires |f| == 24 + 20 && f[24..] == [0, 0] + MMIE_KEY0
    ensures HasMmie(f) && MmieKeyId(f) == 0
  {
    var body := [0, 0] + MMIE_KEY0;
    assert body[2] == 76 && body[3] == 16 && body[4] == 0 && body[5] == 0;
    assert f[26] == f[24..][2] && f[27] == f[24..][3] && f[28] == f[24..][4] && f[29] == f[24..][5];
    assert f[28..30] == [0, 0];
  }

  lemma Key0Passes(env: Env, v: View, f: Octets, b: Addr, a: Addr)
    requires Total(v) && IsLeave(f) && IsGroup(Da(f)) && HasMmie(f) && MmieKeyId(f) == 0
    ensures Unchecked(env, v, b, f) && !Proven(env, v, b, a, f)
  {
  }

  /**
   A broadcast frame from the BSSID whose MIC element names an unknown key id takes the station to State 1,
   although the BSS protects management frames and an IGTK is known, and whatever the MIC is.
   */
  lemma UnknownKeyIdIsUnchecked(env: Env, igtk: Igtk)
    ensures var v := Example(NEW_BSS.(rsnCapab := 0x0080, igtk4 := Some(igtk)));
      var f := PlainDeauth(EVERYONE, AP, AP, [0, 0] + MMIE_KEY0);
      && |f| >= 24 && Mfpc(v.sta[(AP, CLIENT)].rsnCapab) && Mfpc(v.bss[AP].rsnCapab)
      && v.sta[(AP, CLIENT)].state == State3 && Step(env, v, f).sta[(AP, CLIENT)].state != State3
      && !Proven(env, v, AP, CLIENT, f)
  {
    var v := Example(NEW_BSS.(rsnCapab := 0x0080, igtk4 := Some(igtk)));
    var f := PlainDeauth(EVERYONE, AP, AP, [0, 0] + MMIE_KEY0);
    PlainDeauthIs(EVERYONE, AP, AP, [0, 0] + MMIE_KEY0);
    Key0Has(f);
    ExampleIs(v.bss[AP]);
    Key0Passes(env, v, f, AP, CLIENT);
    LeavesState3Iff(env, v, f, AP, CLIENT);
  }

  /** A frame from the station to another station that does not protect management frames does so too. */
  lemma OtherDestinationIsUnchecked(env: Env)
    ensures var v := Example(NEW_BSS.(rsnCapab := 0x0080));
      var f := PlainDeauth(OTHER, CLIENT, AP, [0, 0]);
      && |f| >= 24 && Mfpc(v.sta[(AP, CLIENT)].rsnCapab) && Mfpc(v.bss[AP].rsnCapab)
      && v.sta[(AP, CLIENT)].state == State3 && Step(env, v, f).sta[(AP, CLIENT)].state != State3
      && !Proven(env, v, AP, CLIENT, f)
  {
    var v := Example(NEW_BSS.(rsnCapab := 0x0080));
    var f := PlainDeauth(OTHER, CLIENT, AP, [0, 0]);
    PlainDeauthIs(OTHER, CLIENT, AP, [0, 0]);
    ExampleIs(v.bss[AP]);
    LeavesState3Iff(env, v, f, AP, CLIENT);
  }
}
