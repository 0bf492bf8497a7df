/**
 Key tracking from captured EAPOL-Key frames (hostap08/wlantest/rx_eapol.c): the 4-Way and Group Key Handshakes
 of sections 8.5.3 and 8.5.4 of IEEE Std 802.11-2007.
 */
module RxEapol {
  import opened Octets
  import opened Wrappers
  import opened Ieee80211

  // ---- The frame

  const FIXED_LEN := 4 + 95

  function Be16(f: Octets, k: nat): bv16
    requires k + 2 <= |f|
  {
    ((f[k] as bv16) << 8) | f[k + 1] as bv16
  }

  function KeyInfo(f: Octets): bv16
    requires |f| >= FIXED_LEN
  {
    Be16(f, 5)
  }

  function Version(f: Octets): bv16
    requires |f| >= FIXED_LEN
  {
    KeyInfo(f) & 0x0007
  }

  function Nonce(f: Octets): (r: Octets)
    requires |f| >= FIXED_LEN
    ensures |r| == 32
  {
    f[17..49]
  }

  function KeyRsc(f: Octets): (r: Octets)
    requires |f| >= FIXED_LEN
    ensures |r| == 8
  {
    f[65..73]
  }

  function Mic(f: Octets): (r: Octets)
    requires |f| >= FIXED_LEN
    ensures |r| == 16
  {
    f[81..97]
  }

  /** The frame with the Key MIC field set to zero. */
  function WithoutMic(f: Octets): Octets
    requires |f| >= FIXED_LEN
  {
    f[..81] + Zeros(16) + f[97..]
  }

  function DataLen(f: Octets): nat
    requires |f| >= FIXED_LEN
  {
    256 * (f[97] as nat) + f[98] as nat
  }

  /** An EAPOL-Key frame of a known type and version, with all of its Key Data. */
  predicate WellFormed(f: Octets) {
    && |f| >= FIXED_LEN && (f[4] == 2 || f[4] == 254) && FIXED_LEN + DataLen(f) <= |f|
    && (Version(f) == 1 || Version(f) == 2 || Version(f) == 3)
  }

  function KeyData(f: Octets): Octets
    requires WellFormed(f)
  {
    f[FIXED_LEN..FIXED_LEN + DataLen(f)]
  }

  predicate Encrypted(f: Octets) requires |f| >= FIXED_LEN { KeyInfo(f) & 0x1000 != 0 }

  const INSTALL: bv16 := 0x0040
  const ACK: bv16 := 0x0080
  const MIC: bv16 := 0x0100
  const SECURE: bv16 := 0x0200

  datatype Message = Pairwise1 | Pairwise2 | Pairwise3 | Pairwise4 | Group1 | Group2 | Ignored

  function MessageOf(f: Octets): Message {
    if !WellFormed(f) || KeyInfo(f) & 0x2c00 != 0 then Ignored
    else if KeyInfo(f) & 0x0008 != 0 then
      var bits := KeyInfo(f) & (SECURE | MIC | ACK | INSTALL);
      if bits == ACK then Pairwise1
      else if bits == MIC then (if DataLen(f) == 0 then Pairwise4 else Pairwise2)
      else if bits == MIC | ACK | INSTALL || bits == SECURE | MIC | ACK | INSTALL then Pairwise3
      else if bits == SECURE | MIC then Pairwise4
      else Ignored
    else
      var bits := KeyInfo(f) & (SECURE | MIC | ACK);
      if bits == SECURE | MIC | ACK then Group1 else if bits == SECURE | MIC then Group2 else Ignored
  }

  /** Sent by the access point. */
  predicate FromAp(m: Message) { m == Pairwise1 || m == Pairwise3 || m == Group1 }

  // ---- What is known

  datatype Ptk = Ptk(kck: Octets, kek: Octets, tk: Octets)

  /** What the pairwise key is computed from. */
  datatype PrfInput = PrfInput(pmk: Octets, bssid: Addr, addr: Addr, anonce: Octets, snonce: Octets,
      tkip: bool, sha256: bool)

  datatype Sta = Sta(anonce: Octets, snonce: Octets, ptk: Option<Ptk>, tkip: bool, sha256: bool, rsn: bool)

  const NO_NONCE: Octets := Zeros(32)

  function NewSta(): Sta { Sta(NO_NONCE, NO_NONCE, None, false, false, false) }

  datatype GroupKey = GroupKey(key: Octets, pn: Octets)

  datatype Bss = Bss(pmks: seq<Octets>, stas: map<Addr, Sta>, gtk: map<nat, GroupKey>, gtkIdx: nat,
                     igtk: map<nat, GroupKey>, igtkIdx: nat, groupTkip: bool)

  function NewBss(): Bss { Bss([], map[], map[], 0, map[], 0, false) }

  /** All BSSs, and the PMKs that are tried for each of them. */
  datatype World = World(bsss: map<Addr, Bss>, pmks: seq<Octets>)

  /** The key data encapsulations that matter here. */
  datatype Kdes = Kdes(gtk: Option<Octets>, igtk: Option<Octets>)

  datatype Crypto = Crypto(prf: PrfInput -> Ptk, mic: (Octets, bv16, Octets) -> Option<Octets>,
                           decrypt: (Octets, bv16, Octets) -> Option<Octets>, parse: Octets -> Option<Kdes>)

  predicate MicVerifies(c: Crypto, kck: Octets, f: Octets)
    requires |f| >= FIXED_LEN
  {
    c.mic(kck, Version(f), WithoutMic(f)) == Some(Mic(f))
  }

  function PtkFrom(c: Crypto, pmk: Octets, b: Addr, a: Addr, s: Sta): Ptk {
    c.prf(PrfInput(pmk, b, a, s.anonce, s.snonce, s.tkip, s.sha256))
  }

  /** derive_ptk: the first PMK whose key confirms the frame. */
  function Derive(c: Crypto, pmks: seq<Octets>, b: Addr, a: Addr, s: Sta, f: Octets): Sta
    requires |f| >= FIXED_LEN
  {
    if pmks == [] then s
    else
      var ptk := PtkFrom(c, pmks[0], b, a, s);
      if MicVerifies(c, ptk.kck, f) then s.(ptk := Some(ptk)) else Derive(c, pmks[1..], b, a, s, f)
  }

  /** The first six octets of a receive counter, most significant first. */
  function PnOf(rsc: Octets): Octets
    requires |rsc| >= 6
  {
    [rsc[5], rsc[4], rsc[3], rsc[2], rsc[1], rsc[0]]
  }

  predicate GtkFits(k: Octets) { 2 <= |k| <= 2 + 32 }

  function GtkId(k: Octets): nat requires |k| >= 1 { (k[0] & 0x03) as nat }

  predicate IgtkFits(k: Octets) { |k| == 24 && IgtkId(k) <= 5 }

  function IgtkId(k: Octets): nat requires |k| >= 2 { Le16(k[..2]) as nat }

  function LearnGtk(x: Bss, gtk: Option<Octets>, f: Octets): Bss
    requires |f| >= FIXED_LEN
  {
    if gtk == None || !GtkFits(gtk.value) then x
    else
      var id := GtkId(gtk.value);
      x.(gtk := x.gtk[id := GroupKey(gtk.value[2..], PnOf(KeyRsc(f)))], gtkIdx := id)
  }

  function LearnIgtk(x: Bss, igtk: Option<Octets>): Bss {
    if igtk == None || !IgtkFits(igtk.value) then x
    else
      var id := IgtkId(igtk.value);
      x.(igtk := x.igtk[id := GroupKey(igtk.value[8..], PnOf(igtk.value[2..8]))], igtkIdx := id)
  }

  /** learn_kde_keys */
  function LearnKdes(c: Crypto, x: Bss, d: Octets, f: Octets): Bss
    requires |f| >= FIXED_LEN
  {
    match c.parse(d)
    case None => x
    case Some(k) => LearnIgtk(LearnGtk(x, k.gtk, f), k.igtk)
  }

  /** The Key Data of message 3/4 in the clear. */
  function ClearData(c: Crypto, ptk: Ptk, f: Octets): Option<Octets>
    requires WellFormed(f)
  {
    if Encrypted(f) then c.decrypt(ptk.kek, Version(f), f) else Some(KeyData(f))
  }

  function WpaKeyIndex(f: Octets): nat
    requires |f| >= FIXED_LEN
  {
    ((KeyInfo(f) & 0x0030) >> 4) as nat
  }

  function WithSta(x: Bss, a: Addr): (r: Bss)
    ensures a in r.stas
  {
    if a in x.stas then x else x.(stas := x.stas[a := NewSta()])
  }

  // ---- The handlers, on the BSS and station that a message is about

  function OnPairwise1(x: Bss, a: Addr, f: Octets): Bss
    requires a in x.stas && |f| >= FIXED_LEN
  {
    x.(stas := x.stas[a := x.stas[a].(anonce := Nonce(f))])
  }

  function OnPairwise2(c: Crypto, pmks: seq<Octets>, x: Bss, b: Addr, a: Addr, f: Octets): Bss
    requires a in x.stas && |f| >= FIXED_LEN
  {
    x.(stas := x.stas[a := Derive(c, x.pmks + pmks, b, a, x.stas[a].(snonce := Nonce(f)), f)])
  }

  /** The station after message 3/4: the key is computed again if the nonce is not the one of 1/4. */
  function Rederived(c: Crypto, pmks: seq<Octets>, b: Addr, a: Addr, s: Sta, f: Octets): Sta
    requires |f| >= FIXED_LEN
  {
    var t := s.(anonce := Nonce(f));
    if s.anonce != Nonce(f) then Derive(c, pmks, b, a, t, f) else t
  }

  function OnPairwise3(c: Crypto, pmks: seq<Octets>, x: Bss, b: Addr, a: Addr, f: Octets): Bss
    requires a in x.stas && WellFormed(f)
  {
    var s := Rederived(c, x.pmks + pmks, b, a, x.stas[a], f);
    var y := x.(stas := x.stas[a := s]);
    if s.ptk == None || !MicVerifies(c, s.ptk.value.kck, f) then y
    else match ClearData(c, s.ptk.value, f)
      case None => y
      case Some(d) => LearnKdes(c, y, d, f)
  }

  /** In WPA the Key Data of a group message is the key itself. */
  function LearnBare(x: Bss, d: Octets, f: Octets): Bss
    requires |f| >= FIXED_LEN
  {
    if |d| == (if x.groupTkip then 32 else 16) then
      x.(gtk := x.gtk[WpaKeyIndex(f) := GroupKey(d, PnOf(KeyRsc(f)))])
    else x
  }

  /** In RSN it holds KDEs. */
  function LearnGroup(c: Crypto, rsn: bool, x: Bss, d: Octets, f: Octets): Bss
    requires |f| >= FIXED_LEN
  {
    if rsn then LearnKdes(c, x, d, f) else LearnBare(x, d, f)
  }

  function OnGroup1(c: Crypto, x: Bss, a: Addr, f: Octets): Bss
    requires a in x.stas && |f| >= FIXED_LEN
  {
    var s := x.stas[a];
    if s.ptk == None || !MicVerifies(c, s.ptk.value.kck, f) || (s.rsn && !Encrypted(f)) then x
    else match c.decrypt(s.ptk.value.kek, Version(f), f)
      case None => x
      case Some(d) => LearnGroup(c, s.rsn, x, d, f)
  }

  function OnMessage(c: Crypto, m: Message, pmks: seq<Octets>, x: Bss, b: Addr, a: Addr, f: Octets): Bss
    requires a in x.stas && WellFormed(f)
  {
    match m
    case Pairwise1 => OnPairwise1(x, a, f)
    case Pairwise2 => OnPairwise2(c, pmks, x, b, a, f)
    case Pairwise3 => OnPairwise3(c, pmks, x, b, a, f)
    case Group1 => OnGroup1(c, x, a, f)
    case _ => x
  }

  // ---- Events

  datatype Event =
    | Eapol(src: Addr, dst: Addr, frame: Octets)
    | AddPmk(pmk: Octets)
    | AddBssPmk(bssid: Addr, pmk: Octets)
    | Configure(bssid: Addr, addr: Addr, tkip: bool, sha256: bool, rsn: bool, groupTkip: bool)

  function GetBss(w: World, b: Addr): Bss {
    if b in w.bsss then w.bsss[b] else NewBss()
  }

  function SetBss(w: World, b: Addr, x: Bss): World {
    w.(bsss := w.bsss[b := x])
  }

  function ApOf(e: Event): Addr requires e.Eapol? { if FromAp(MessageOf(e.frame)) then e.src else e.dst }
  function StaOf(e: Event): Addr requires e.Eapol? { if FromAp(MessageOf(e.frame)) then e.dst else e.src }

  function Receive(c: Crypto, w: World, e: Event): World
    requires e.Eapol?
  {
    var b, a := ApOf(e), StaOf(e);
    if MessageOf(e.frame) == Ignored || IsGroup(b) then w
    else if IsGroup(a) then SetBss(w, b, GetBss(w, b))
    else SetBss(w, b, OnMessage(c, MessageOf(e.frame), w.pmks, WithSta(GetBss(w, b), a), b, a, e.frame))
  }

  function Step(c: Crypto, w: World, e: Event): World {
    match e
    case Eapol(_, _, _) => Receive(c, w, e)
    case AddPmk(pmk) => w.(pmks := [pmk] + w.pmks)
    case AddBssPmk(b, pmk) => SetBss(w, b, GetBss(w, b).(pmks := [pmk] + GetBss(w, b).pmks))
    case Configure(b, a, tkip, sha256, rsn, groupTkip) =>
      var x := WithSta(GetBss(w, b), a);
      SetBss(w, b, x.(stas := x.stas[a := x.stas[a].(tkip := tkip, sha256 := sha256, rsn := rsn)], groupTkip := groupTkip))
  }

  function Run(c: Crypto, es: seq<Event>): World {
    if es == [] then World(map[], []) else Step(c, Run(c, es[..|es| - 1]), es[|es| - 1])
  }
}
