/** Every key that captured frames reveal is learned: the fields of a frame, each message, and a whole handshake. */
module RxEapolLearning {
  import opened Octets
  import opened Ieee80211
  import opened Wrappers
  import opened RxEapol
  import opened RxEapolRuns
  import opened PacketNumber

  // ---- The fields of a frame

  function PutBe16(v: bv16): (r: Octets)
    ensures |r| == 2
  {
    [(v >> 8) as bv8, (v & 0xff) as bv8]
  }

  /** An EAPOL-Key frame, in the order of its fields. */
  datatype KeyFrame = KeyFrame(header: Octets, descriptor: bv8, info: bv16, length: Octets, replay: Octets,
                               nonce: Octets, iv: Octets, rsc: Octets, id: Octets, mic: Octets, data: Octets)
  {
    predicate Fits() {
      && |header| == 4 && |length| == 2 && |replay| == 8 && |nonce| == 32 && |iv| == 16 && |rsc| == 8 && |id| == 8
      && |mic| == 16 && |data| < 65536
    }

    function Head(): (r: Octets)
      requires Fits()
      ensures |r| == 81
    {
      header + [descriptor] + PutBe16(info) + length + replay + nonce + iv + rsc + id
    }

    function Tail(): (r: Octets)
      requires Fits()
      ensures |r| == 2 + |data|
    {
      BigEndian(|data|, 2) + data
    }

    function Wire(): (r: Octets)
      requires Fits()
      ensures |r| == FIXED_LEN + |data|
    {
      Head() + mic + Tail()
    }
  }

  lemma Be16Inverse(v: bv16)
    ensures ((((v >> 8) as bv8) as bv16) << 8) | (((v & 0xff) as bv8) as bv16) == v
  {
  }

  lemma HeadFields(k: KeyFrame)
    requires k.Fits()
    ensures var h := k.Head();
      h[4] == k.descriptor && [h[5], h[6]] == PutBe16(k.info) && h[17..49] == k.nonce && h[65..73] == k.rsc
  {
    var h := k.Head();
    assert h[5..7] == PutBe16(k.info);
    assert h[5] == h[5..7][0] && h[6] == h[5..7][1];
  }

  lemma TailFields(k: KeyFrame)
    requires k.Fits()
    ensures var t := k.Tail(); 256 * (t[0] as nat) + t[1] as nat == |k.data| && t[2..] == k.data
  {
    var n, t := |k.data|, k.Tail();
    var hi, lo := n / 256, n % 256;
    BigEndianSplit(n, 2);
    BigEndianSplit(hi, 1);
    OctetExact(hi);
    OctetExact(lo);
    assert BigEndian(n, 2) == [hi as bv8, lo as bv8];
  }

  /** A frame is read as it was written. */
  lemma FieldsAreRead(k: KeyFrame)
    requires k.Fits()
    ensures var f := k.Wire();
      && f[4] == k.descriptor && KeyInfo(f) == k.info && Nonce(f) == k.nonce && KeyRsc(f) == k.rsc && Mic(f) == k.mic
      && DataLen(f) == |k.data| && f[FIXED_LEN..] == k.data && WithoutMic(f) == k.(mic := Zeros(16)).Wire()
  {
    var f, h, t := k.Wire(), k.Head(), k.Tail();
    HeadFields(k);
    TailFields(k);
    Be16Inverse(k.info);
    assert f[..81] == h && f[81..97] == k.mic && f[97..] == t;
    SubSlice(f, 0, 81, 17, 49);
    SubSlice(f, 0, 81, 65, 73);
    assert f[97] == t[0] && f[98] == t[1] && f[99..] == t[2..];
    assert f[4] == h[4] && f[5] == h[5] && f[6] == h[6];
    assert k.(mic := Zeros(16)).Head() == h && k.(mic := Zeros(16)).Tail() == t;
  }

  lemma InfoOctets(hi: bv8, lo: bv8)
    ensures var i := ((hi as bv16) << 8) | lo as bv16;
      && i & 0x0007 == (lo & 0x07) as bv16 && (i & 0x1000 != 0 <==> hi & 0x10 != 0)
      && (i & 0x0030) >> 4 == ((lo & 0x30) >> 4) as bv16
  {
  }

  lemma InfoByOctet(f: Octets)
    requires |f| >= FIXED_LEN
    ensures Version(f) == (f[6] & 0x07) as bv16 && (Encrypted(f) <==> f[5] & 0x10 != 0)
    ensures WpaKeyIndex(f) == (((f[6] & 0x30) >> 4) as bv16) as nat
  {
    InfoOctets(f[5], f[6]);
  }

  // ---- The kinds of messages, by the Key Information field

  lemma InfoBits(i: bv16)
    ensures i & 0x2c00 == 0 && i & 0x0008 != 0 && i & (SECURE | MIC | ACK | INSTALL) == ACK <==> i & 0x2fc8 == 0x0088
    ensures i & 0x2c00 == 0 && i & 0x0008 != 0 && i & (SECURE | MIC | ACK | INSTALL) == MIC <==> i & 0x2fc8 == 0x0108
    ensures i & 0x2c00 == 0 && i & 0x0008 != 0 && i & (MIC | ACK | INSTALL) == MIC | ACK | INSTALL <==>
      i & 0x2dc8 == 0x01c8
    ensures i & 0x2c00 == 0 && i & 0x0008 != 0 && i & (SECURE | MIC | ACK | INSTALL) == SECURE | MIC <==>
      i & 0x2fc8 == 0x0308
    ensures i & 0x2c00 == 0 && i & 0x0008 == 0 && i & (SECURE | MIC | ACK) == SECURE | MIC | ACK <==>
      i & 0x2f88 == 0x0380
    ensures i & 0x2c00 == 0 && i & 0x0008 == 0 && i & (SECURE | MIC | ACK) == SECURE | MIC <==> i & 0x2f88 == 0x0300
  {
  }

  lemma Either3(i: bv16)
    ensures i & (MIC | ACK | INSTALL) == MIC | ACK | INSTALL <==>
      (i & (SECURE | MIC | ACK | INSTALL) == MIC | ACK | INSTALL ||
       i & (SECURE | MIC | ACK | INSTALL) == SECURE | MIC | ACK | INSTALL)
  {
  }

  /** Which message a well-formed frame is; message 2/4 and message 4/4 of WPA differ by their Key Data only. */
  lemma MessageByInfo(f: Octets)
    requires WellFormed(f)
    ensures MessageOf(f) == Pairwise1 <==> KeyInfo(f) & 0x2fc8 == 0x0088
    ensures MessageOf(f) == Pairwise2 <==> KeyInfo(f) & 0x2fc8 == 0x0108 && DataLen(f) != 0
    ensures MessageOf(f) == Pairwise3 <==> KeyInfo(f) & 0x2dc8 == 0x01c8
    ensures MessageOf(f) == Pairwise4 <==>
      KeyInfo(f) & 0x2fc8 == 0x0308 || (KeyInfo(f) & 0x2fc8 == 0x0108 && DataLen(f) == 0)
    ensures MessageOf(f) == Group1 <==> KeyInfo(f) & 0x2f88 == 0x0380
    ensures MessageOf(f) == Group2 <==> KeyInfo(f) & 0x2f88 == 0x0300
  {
    InfoBits(KeyInfo(f));
    Either3(KeyInfo(f));
  }

  lemma AckBits(i: bv16)
    ensures i & 0x2fc8 == 0x0088 || i & 0x2dc8 == 0x01c8 || i & 0x2f88 == 0x0380 ==> i & 0x0080 != 0
    ensures i & 0x2fc8 == 0x0108 || i & 0x2fc8 == 0x0308 || i & 0x2f88 == 0x0300 ==> i & 0x0080 == 0
  {
  }

  /** The access point is the one that asks for an answer. */
  lemma SenderByAck(e: Event)
    requires e.Eapol? && MessageOf(e.frame) != Ignored
    ensures (ApOf(e), StaOf(e)) == if KeyInfo(e.frame) & 0x0080 != 0 then (e.src, e.dst) else (e.dst, e.src)
  {
    MessageByInfo(e.frame);
    AckBits(KeyInfo(e.frame));
  }

  // ---- The pairwise key

  /** The key of a PMK confirms a frame. */
  predicate Confirms(c: Crypto, pmk: Octets, b: Addr, a: Addr, s: Sta, f: Octets)
    requires |f| >= FIXED_LEN
  {
    var ptk := c.prf(PrfInput(pmk, b, a, s.anonce, s.snonce, s.tkip, s.sha256));
    c.mic(ptk.kck, Version(f), WithoutMic(f)) == Some(Mic(f))
  }

  predicate FirstConfirming(c: Crypto, pmks: seq<Octets>, b: Addr, a: Addr, s: Sta, f: Octets, i: nat)
    requires |f| >= FIXED_LEN
  {
    i < |pmks| && Confirms(c, pmks[i], b, a, s, f) && forall j :: 0 <= j < i ==> !Confirms(c, pmks[j], b, a, s, f)
  }

  /** The first PMK in the list whose key confirms the frame gives the key; if there is none, nothing changes. */
  lemma {:induction false} DeriveIs(c: Crypto, pmks: seq<Octets>, b: Addr, a: Addr, s: Sta, f: Octets)
    requires |f| >= FIXED_LEN
    ensures forall i: nat :: FirstConfirming(c, pmks, b, a, s, f, i) ==>
      Derive(c, pmks, b, a, s, f) ==
        s.(ptk := Some(c.prf(PrfInput(pmks[i], b, a, s.anonce, s.snonce, s.tkip, s.sha256))))
    ensures (forall p :: p in pmks ==> !Confirms(c, p, b, a, s, f)) ==> Derive(c, pmks, b, a, s, f) == s
  {
    if pmks != [] && !Confirms(c, pmks[0], b, a, s, f) {
      DeriveIs(c, pmks[1..], b, a, s, f);
      forall i: nat | FirstConfirming(c, pmks, b, a, s, f, i)
        ensures i > 0 && FirstConfirming(c, pmks[1..], b, a, s, f, i - 1) && pmks[1..][i - 1] == pmks[i]
      {
        assert forall j :: 0 <= j < i - 1 ==> pmks[1..][j] == pmks[j + 1];
      }
    }
  }

  function Pmks(w: World, b: Addr): seq<Octets> {
    if b in w.bsss then w.bsss[b].pmks + w.pmks else w.pmks
  }

  lemma HandledSta(c: Crypto, w: World, e: Event, b: Addr, a: Addr)
    requires e.Eapol? && Between(e, b, a, {Pairwise1, Pairwise2, Pairwise3, Group1})
    ensures var x := WithSta(GetBss(w, b), a);
      && x.stas[a] == StaAt(w, b, a) && x.pmks + w.pmks == Pmks(w, b)
      && Receive(c, w, e) == SetBss(w, b, OnMessage(c, MessageOf(e.frame), w.pmks, x, b, a, e.frame))
  {
  }

  /** Message 2/4: the nonce is kept, and the key of the first PMK that confirms the frame. */
  lemma Pairwise2Learns(c: Crypto, w: World, e: Event, b: Addr, a: Addr, i: nat)
    requires Between(e, b, a, {Pairwise2})
    requires FirstConfirming(c, Pmks(w, b), b, a, StaAt(w, b, a).(snonce := Nonce(e.frame)), e.frame, i)
    ensures var s, f := StaAt(w, b, a), e.frame;
      StaAt(Receive(c, w, e), b, a) == s.(snonce := Nonce(f),
        ptk := Some(c.prf(PrfInput(Pmks(w, b)[i], b, a, s.anonce, Nonce(f), s.tkip, s.sha256))))
  {
    HandledSta(c, w, e, b, a);
    DeriveIs(c, Pmks(w, b), b, a, StaAt(w, b, a).(snonce := Nonce(e.frame)), e.frame);
  }

  lemma Pairwise3Keeps(c: Crypto, pmks: seq<Octets>, x: Bss, b: Addr, a: Addr, f: Octets)
    requires a in x.stas && WellFormed(f)
    ensures var y := OnPairwise3(c, pmks, x, b, a, f);
      a in y.stas && y.stas[a] == Rederived(c, x.pmks + pmks, b, a, x.stas[a], f)
  {
    forall x: Bss, d ensures LearnKdes(c, x, d, f).stas == x.stas {
      LearnKeepsStas(c, x, d, f);
    }
  }

  lemma Pairwise3Sta(c: Crypto, w: World, e: Event, b: Addr, a: Addr)
    requires Between(e, b, a, {Pairwise3})
    ensures StaAt(Receive(c, w, e), b, a) == Rederived(c, Pmks(w, b), b, a, StaAt(w, b, a), e.frame)
  {
    HandledSta(c, w, e, b, a);
    Pairwise3Keeps(c, w.pmks, WithSta(GetBss(w, b), a), b, a, e.frame);
  }

  /** Message 3/4 with the nonce of message 1/4 keeps the key; with another nonce it is computed as in message 2/4. */
  lemma Pairwise3Rederives(c: Crypto, w: World, e: Event, b: Addr, a: Addr, i: nat)
    requires Between(e, b, a, {Pairwise3})
    ensures var s, t := StaAt(w, b, a), StaAt(w, b, a).(anonce := Nonce(e.frame));
      var r := StaAt(Receive(c, w, e), b, a);
      if s.anonce == Nonce(e.frame) then r == s
      else
        && (FirstConfirming(c, Pmks(w, b), b, a, t, e.frame, i) ==>
             r == t.(ptk := Some(c.prf(PrfInput(Pmks(w, b)[i], b, a, Nonce(e.frame), s.snonce, s.tkip, s.sha256)))))
        && ((forall p :: p in Pmks(w, b) ==> !Confirms(c, p, b, a, t, e.frame)) ==> r == t)
  {
    Pairwise3Sta(c, w, e, b, a);
    DeriveIs(c, Pmks(w, b), b, a, StaAt(w, b, a).(anonce := Nonce(e.frame)), e.frame);
  }

  // ---- The group keys

  predicate SameGroupKeys(x: Bss, y: Bss) {
    x.gtk == y.gtk && x.gtkIdx == y.gtkIdx && x.igtk == y.igtk && x.igtkIdx == y.igtkIdx
  }

  /** A GTK KDE: key id in the low bits of octet 0, octet 1 reserved, then 0 to 32 octets of key. */
  predicate HasGtk(g: Option<Octets>) { g.Some? && 2 <= |g.value| <= 34 }

  /** An IGTK KDE: key id at most 5 in octets 0 and 1, packet number in octets 2 to 7, then 16 octets of key. */
  predicate HasIgtk(g: Option<Octets>) { g.Some? && |g.value| == 24 && Le16(g.value[..2]) as nat <= 5 }

  /** The group keys of y are those of x and the ones in k, with the counter of frame f for the GTK. */
  predicate Learned(x: Bss, y: Bss, k: Kdes, f: Octets)
    requires |f| >= FIXED_LEN
  {
    && (if HasGtk(k.gtk) then
          var g := k.gtk.value;
          y.gtkIdx == (g[0] & 3) as nat && y.gtk == x.gtk[y.gtkIdx := GroupKey(g[2..], PnOf(f[65..71]))]
        else y.gtk == x.gtk && y.gtkIdx == x.gtkIdx)
    && (if HasIgtk(k.igtk) then
          var g := k.igtk.value;
          y.igtkIdx == Le16(g[..2]) as nat && y.igtk == x.igtk[y.igtkIdx := GroupKey(g[8..24], PnOf(g[2..8]))]
        else y.igtk == x.igtk && y.igtkIdx == x.igtkIdx)
  }

  lemma LearnGtkIs(x: Bss, k: Kdes, f: Octets)
    requires |f| >= FIXED_LEN
    ensures Learned(x, LearnGtk(x, k.gtk, f), k.(igtk := None), f)
  {
    assert PnOf(KeyRsc(f)) == PnOf(f[65..71]);
  }

  lemma LearnIgtkIs(x: Bss, k: Kdes)
    ensures var y := LearnIgtk(x, k.igtk);
      && y.gtk == x.gtk && y.gtkIdx == x.gtkIdx
      && forall f: Octets :: |f| >= FIXED_LEN ==> Learned(x, y, k.(gtk := None), f)
  {
    if k.igtk.Some? && |k.igtk.value| == 24 {
      assert k.igtk.value[8..] == k.igtk.value[8..24];
    }
  }

  lemma LearnKdesIs(c: Crypto, x: Bss, d: Octets, f: Octets)
    requires |f| >= FIXED_LEN
    ensures match c.parse(d)
      case None => SameGroupKeys(x, LearnKdes(c, x, d, f))
      case Some(k) => Learned(x, LearnKdes(c, x, d, f), k, f)
  {
    if c.parse(d).Some? {
      LearnGtkIs(x, c.parse(d).value, f);
      LearnIgtkIs(LearnGtk(x, c.parse(d).value.gtk, f), c.parse(d).value);
    }
  }

  /** The key data encapsulations that a frame reveals to the holder of a pairwise key. */
  function Revealed(c: Crypto, ptk: Option<Ptk>, f: Octets): Option<Kdes>
    requires WellFormed(f)
  {
    if ptk == None || c.mic(ptk.value.kck, Version(f), WithoutMic(f)) != Some(Mic(f)) then None
    else if f[5] & 0x10 == 0 then c.parse(f[99..99 + DataLen(f)])
    else match c.decrypt(ptk.value.kek, Version(f), f)
      case None => None
      case Some(d) => c.parse(d)
  }

  lemma Pairwise3Group(c: Crypto, pmks: seq<Octets>, x: Bss, b: Addr, a: Addr, f: Octets)
    requires a in x.stas && WellFormed(f)
    ensures var y := OnPairwise3(c, pmks, x, b, a, f);
      match Revealed(c, Rederived(c, x.pmks + pmks, b, a, x.stas[a], f).ptk, f)
      case None => SameGroupKeys(x, y)
      case Some(k) => Learned(x, y, k, f)
  {
    InfoByOctet(f);
    var s := Rederived(c, x.pmks + pmks, b, a, x.stas[a], f);
    if s.ptk.Some? && ClearData(c, s.ptk.value, f).Some? {
      LearnKdesIs(c, x.(stas := x.stas[a := s]), ClearData(c, s.ptk.value, f).value, f);
    }
  }

  /**
   Message 3/4: the group keys that the frame reveals under the pairwise key that the station then holds are stored
   under their ids and become current; a frame that reveals none changes none.
   */
  lemma Pairwise3Learns(c: Crypto, w: World, e: Event, b: Addr, a: Addr)
    requires Between(e, b, a, {Pairwise3})
    ensures match Revealed(c, StaAt(Receive(c, w, e), b, a).ptk, e.frame)
      case None => SameGroupKeys(GetBss(w, b), GetBss(Receive(c, w, e), b))
      case Some(k) => Learned(GetBss(w, b), GetBss(Receive(c, w, e), b), k, e.frame)
  {
    HandledSta(c, w, e, b, a);
    Pairwise3Sta(c, w, e, b, a);
    Pairwise3Group(c, w.pmks, WithSta(GetBss(w, b), a), b, a, e.frame);
  }

  /** A group message of WPA: the decrypted Key Data is the key, of 32 octets for TKIP and of 16 for CCMP. */
  function RevealedBare(c: Crypto, ptk: Option<Ptk>, f: Octets, tkip: bool): Option<Octets>
    requires WellFormed(f)
  {
    if ptk == None || c.mic(ptk.value.kck, Version(f), WithoutMic(f)) != Some(Mic(f)) then None
    else match c.decrypt(ptk.value.kek, Version(f), f)
      case None => None
      case Some(d) => if |d| == (if tkip then 32 else 16) then Some(d) else None
  }

  lemma Group1Bare(c: Crypto, x: Bss, a: Addr, f: Octets)
    requires a in x.stas && WellFormed(f) && !x.stas[a].rsn
    ensures var y := OnGroup1(c, x, a, f);
      match RevealedBare(c, x.stas[a].ptk, f, x.groupTkip)
      case None => SameGroupKeys(x, y)
      case Some(d) =>
        SameGroupKeys(x.(gtk := x.gtk[(((f[6] & 0x30) >> 4) as bv16) as nat := GroupKey(d, PnOf(f[65..71]))]), y)
  {
    InfoByOctet(f);
    assert PnOf(KeyRsc(f)) == PnOf(f[65..71]);
  }

  lemma Group1Kdes(c: Crypto, x: Bss, a: Addr, f: Octets)
    requires a in x.stas && WellFormed(f) && x.stas[a].rsn
    ensures var y := OnGroup1(c, x, a, f);
      match (if f[5] & 0x10 == 0 then None else Revealed(c, x.stas[a].ptk, f))
      case None => SameGroupKeys(x, y)
      case Some(k) => Learned(x, y, k, f)
  {
    InfoByOctet(f);
    var s := x.stas[a];
    if s.ptk.Some? && c.decrypt(s.ptk.value.kek, Version(f), f).Some? {
      LearnKdesIs(c, x, c.decrypt(s.ptk.value.kek, Version(f), f).value, f);
    }
  }

  /** Group message 1/2 in RSN must be encrypted, and is read as message 3/4 is. */
  lemma Group1Learns(c: Crypto, w: World, e: Event, b: Addr, a: Addr)
    requires Between(e, b, a, {Group1}) && StaAt(w, b, a).rsn
    ensures match (if e.frame[5] & 0x10 == 0 then None else Revealed(c, StaAt(w, b, a).ptk, e.frame))
      case None => SameGroupKeys(GetBss(w, b), GetBss(Receive(c, w, e), b))
      case Some(k) => Learned(GetBss(w, b), GetBss(Receive(c, w, e), b), k, e.frame)
  {
    HandledSta(c, w, e, b, a);
    Group1Kdes(c, WithSta(GetBss(w, b), a), a, e.frame);
  }

  /** In WPA it is the key, for the id in bits 4 and 5 of the Key Information; the current id stays. */
  lemma Group1LearnsBare(c: Crypto, w: World, e: Event, b: Addr, a: Addr)
    requires Between(e, b, a, {Group1}) && !StaAt(w, b, a).rsn
    ensures var x, y, f := GetBss(w, b), GetBss(Receive(c, w, e), b), e.frame;
      match RevealedBare(c, StaAt(w, b, a).ptk, f, x.groupTkip)
      case None => SameGroupKeys(x, y)
      case Some(d) =>
        SameGroupKeys(x.(gtk := x.gtk[(((f[6] & 0x30) >> 4) as bv16) as nat := GroupKey(d, PnOf(f[65..71]))]), y)
  {
    HandledSta(c, w, e, b, a);
    Group1Bare(c, WithSta(GetBss(w, b), a), a, e.frame);
  }

  lemma MessageLearnsNothing(c: Crypto, m: Message, pmks: seq<Octets>, x: Bss, b: Addr, a: Addr, f: Octets)
    requires a in x.stas && WellFormed(f) && m != Pairwise3 && m != Group1
    ensures SameGroupKeys(x, OnMessage(c, m, pmks, x, b, a, f))
  {
  }

  /** No other message changes a group key, and no message changes anything about another BSS. */
  lemma OthersLearnNothing(c: Crypto, w: World, e: Event, b: Addr)
    requires e.Eapol? && (b != ApOf(e) || MessageOf(e.frame) !in {Pairwise3, Group1})
    ensures SameGroupKeys(GetBss(w, b), GetBss(Receive(c, w, e), b))
    ensures b != ApOf(e) ==> GetBss(w, b) == GetBss(Receive(c, w, e), b)
  {
    var m, a := MessageOf(e.frame), StaOf(e);
    if b == ApOf(e) && m != Ignored {
      MessageLearnsNothing(c, m, w.pmks, WithSta(GetBss(w, b), a), b, a, e.frame);
    }
  }

  // ---- A whole handshake

  /**
   A 4-Way Handshake seen from its first message, with a PMK on the list: if that PMK is the first whose key confirms
   message 2/4, and the key confirms message 3/4 with the nonce of message 1/4, then the station is left with that key
   and the BSS with every group key that message 3/4 reveals under it.
   */
  lemma HandshakeIsFollowed(c: Crypto, w: World, e1: Event, e2: Event, e3: Event, b: Addr, a: Addr, i: nat, ptk: Ptk)
    requires Between(e1, b, a, {Pairwise1}) && Between(e2, b, a, {Pairwise2}) && Between(e3, b, a, {Pairwise3})
    requires Nonce(e3.frame) == Nonce(e1.frame)
    requires var s := StaAt(w, b, a).(anonce := Nonce(e1.frame), snonce := Nonce(e2.frame));
      && FirstConfirming(c, Pmks(w, b), b, a, s, e2.frame, i)
      && ptk == c.prf(PrfInput(Pmks(w, b)[i], b, a, s.anonce, s.snonce, s.tkip, s.sha256))
    ensures var w2 := Step(c, Step(c, w, e1), e2);
      var w3 := Step(c, w2, e3);
      && StaAt(w3, b, a).ptk == Some(ptk)
      && match Revealed(c, Some(ptk), e3.frame)
         case None => SameGroupKeys(GetBss(w, b), GetBss(w3, b))
         case Some(k) => Learned(GetBss(w, b), GetBss(w3, b), k, e3.frame)
  {
    var w1 := Receive(c, w, e1);
    Pairwise1Keeps(c, w, e1, b, a);
    OthersLearnNothing(c, w, e1, b);
    Pairwise2Learns(c, w1, e2, b, a, i);
    OthersLearnNothing(c, w1, e2, b);
    var w2 := Receive(c, w1, e2);
    Pairwise3Rederives(c, w2, e3, b, a, 0);
    Pairwise3Learns(c, w2, e3, b, a);
  }

  /** Message 1/4 records its nonce. */
  lemma Pairwise1Keeps(c: Crypto, w: World, e: Event, b: Addr, a: Addr)
    requires Between(e, b, a, {Pairwise1})
    ensures StaAt(Receive(c, w, e), b, a) == StaAt(w, b, a).(anonce := Nonce(e.frame))
    ensures Pmks(Receive(c, w, e), b) == Pmks(w, b)
  {
    HandledSta(c, w, e, b, a);
  }
}
