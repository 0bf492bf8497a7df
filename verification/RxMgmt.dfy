/**
 Association tracking from captured management frames (hostap08/wlantest/rx_mgmt.c), as a function on what is
 known about every address: a station or BSS that is not in the table reads as a new one.
 */
module RxMgmt {
  import opened Octets
  import opened Ieee80211
  import opened Ccm
  import opened Wrappers
  import opened Ccmp
  import CcmpFrames

  datatype State = State1 | State2 | State3

  const NEW_PN: Octets := [0, 0, 0, 0, 0, 0]

  /** The fixed fields and the elements of a (Re)Association Request. */
  datatype AssocRequest = AssocRequest(capabInfo: bv16, listenInt: bv16, ies: Octets)

  /** Protocols, ciphers and key management, as bit masks. */
  datatype Security = Security(proto: bv16, pairwise: bv16, group: bv16, keyMgmt: bv16, mgmtGroup: bv16)

  const NO_SECURITY := Security(0, 0, 0, 0, 0)

  /** A station, without its event counters. */
  datatype Sta = Sta(state: State, aid: bv16, rsnCapab: bv16, security: Security, rsnIe: Option<Octets>,
                     request: AssocRequest, ptk: Option<Octets>, rscToDs: Octets, rscFromDs: Octets)

  const NEW_STA := Sta(State1, 0, 0, NO_SECURITY, None, AssocRequest(0, 0, []), None, NEW_PN, NEW_PN)

  datatype Link = Link(initiator: Addr, responder: Addr, up: bool)

  /** An IGTK and the last packet number received with it. */
  datatype Igtk = Igtk(key: Octets, ipn: Octets)

  datatype Bss = Bss(capabInfo: bv16, prevCapabInfo: bv16, ssid: Octets, wpaIe: Option<Octets>, rsnIe: Option<Octets>,
                     rsnCapab: bv16, security: Security, igtk4: Option<Igtk>, igtk5: Option<Igtk>, links: seq<Link>)

  const NEW_BSS := Bss(0, 0, [], None, None, 0, NO_SECURITY, None, None, [])

  /** The station of an address in a BSS, and the BSS of an address; both are total. */
  datatype View = View(sta: imap<(Addr, Addr), Sta>, bss: imap<Addr, Bss>)

  ghost predicate Total(v: View) {
    (forall b: Addr, a: Addr :: (b, a) in v.sta) && forall b: Addr :: b in v.bss
  }

  datatype Elems = Elems(ssid: Option<Octets>, wpaIe: Option<Octets>, rsnIe: Option<Octets>)

  /** What an RSN or WPA element says, as far as it could be parsed. */
  datatype IeData = IeData(ok: bool, security: Security, capab: bv16)

  /** AES under a key, AES-CMAC, and the parsers of information elements. */
  datatype Env = Env(aes: Octets -> Cipher, cmac: (Octets, Octets) -> Octets, parse: Octets -> Option<Elems>,
                     parseRsn: Octets -> IeData, parseWpa: Octets -> IeData)

  // ---- Frames

  datatype Kind = Beacon | ProbeResp | Auth | Deauth | AssocReq | AssocResp | ReassocReq | ReassocResp | Disassoc
    | Action | Other

  function KindOf(f: Octets): Kind
    requires |f| >= 24
  {
    var s := Subtype(FrameControl(f));
    if s == 0 then AssocReq else if s == 1 then AssocResp else if s == 2 then ReassocReq else if s == 3 then ReassocResp
    else if s == 5 then ProbeResp else if s == 8 then Beacon else if s == 10 then Disassoc else if s == 11 then Auth
    else if s == 12 then Deauth else if s == 13 then Action else Other
  }

  function Da(f: Octets): Addr requires |f| >= 24 { Addr1(f) }
  function Sa(f: Octets): Addr requires |f| >= 24 { Addr2(f) }
  function Bssid(f: Octets): Addr requires |f| >= 24 { Addr3(f) }

  predicate IsProtected(f: Octets) requires |f| >= 2 { FrameControl(f) & FC_ISWEP != 0 }

  predicate IsBroadcast(a: Addr) { a != [] && a[0] == 0xff }

  /** The frames that management frame protection covers. */
  predicate IsRobust(k: Kind) { k == Deauth || k == Disassoc || k == Action }

  /** Beacons and Probe Responses reach the handlers only with their fixed fields. */
  predicate Complete(f: Octets) {
    |f| >= 24 && (KindOf(f) == Beacon || KindOf(f) == ProbeResp ==> |f| >= 36)
  }

  function U16(f: Octets, k: nat): bv16
    requires k + 2 <= |f|
  {
    Le16(f[k..k + 2])
  }

  /** The station that a handler takes a frame to be about. */
  function Peer(f: Octets): Addr
    requires |f| >= 24
  {
    if Sa(f) == Bssid(f) then Da(f) else Sa(f)
  }

  /** The station whose key and capabilities a robust frame is checked against. */
  function CheckedPeer(f: Octets): Addr
    requires |f| >= 24
  {
    if Da(f) == Bssid(f) then Sa(f) else Da(f)
  }

  // ---- Validity

  predicate Mfpc(capab: bv16) { capab & 0x0080 != 0 }

  const EID_MMIE: bv8 := 76
  const ACTION_PUBLIC: bv8 := 4

  predicate IsPublicAction(f: Octets)
    requires |f| >= 24
  {
    KindOf(f) == Action && |f| > 24 && f[24] == ACTION_PUBLIC
  }

  predicate HasMmie(f: Octets) {
    |f| >= 24 + 18 && f[|f| - 18] == EID_MMIE && f[|f| - 17] == 16
  }

  function MmieKeyId(f: Octets): bv16
    requires |f| >= 42
  {
    U16(f, |f| - 16) & 0x0fff
  }

  function MmieIpn(f: Octets): Octets
    requires |f| >= 42
  {
    f[|f| - 14..|f| - 8]
  }

  /** What the MIC of BIP covers: masked frame control, addresses, and the body with the MIC set to zero. */
  function BipData(f: Octets): Octets
    requires |f| >= 42
  {
    PutLe16(FrameControl(f) & !(FC_RETRY | FC_PWRMGT | FC_MOREDATA)) + f[4..22] + f[24..|f| - 8] + Zeros(8)
  }

  predicate MmieVerifies(env: Env, key: Octets, f: Octets)
    requires |f| >= 42
  {
    var mic := env.cmac(key, BipData(f));
    |mic| >= 8 && f[|f| - 8..] == mic[..8]
  }

  function IgtkFor(b: Bss, keyid: bv16): Option<Igtk> {
    if keyid == 4 then b.igtk4 else if keyid == 5 then b.igtk5 else None
  }

  function SetIpn(b: Bss, keyid: bv16, ipn: Octets): Bss {
    if keyid == 4 && b.igtk4.Some? then b.(igtk4 := Some(b.igtk4.value.(ipn := ipn)))
    else if keyid == 5 && b.igtk5.Some? then b.(igtk5 := Some(b.igtk5.value.(ipn := ipn)))
    else b
  }

  datatype BipVerdict = BipUnchecked | BipMissing | BipBad | BipGood(keyid: bv16)

  /** check_bip */
  function CheckBip(env: Env, b: Bss, f: Octets): BipVerdict
    requires |f| >= 24
  {
    if (KindOf(f) == Action && |f| < 25) || IsPublicAction(f) || IsGroup(Bssid(f)) then BipUnchecked
    else if !HasMmie(f) then (if Mfpc(b.rsnCapab) then BipMissing else BipUnchecked)
    else match IgtkFor(b, MmieKeyId(f))
      case None => BipUnchecked
      case Some(k) => if MmieVerifies(env, k.key, f) then BipGood(MmieKeyId(f)) else BipBad
  }

  /** mgmt_ccmp_decrypt: the frame with its body in the clear. */
  function Decrypted(env: Env, s: Sta, f: Octets): Option<Octets>
    requires |f| >= 24
  {
    if IsGroup(Bssid(f)) || IsGroup(CheckedPeer(f)) || s.ptk == None || |f| < 40 || f[27] & 0x20 == 0 then None
    else match CcmpFrames.Decapsulate(env.aes(s.ptk.value), f, f[24..])
      case None => None
      case Some(m) => Some(f[..24] + m)
  }

  /** check_mgmt_ccmp: an unprotected frame where the station requires protection. */
  predicate LacksProtection(s: Sta, f: Octets)
    requires |f| >= 24
  {
    && !IsPublicAction(f) && !IsGroup(Bssid(f)) && !IsGroup(CheckedPeer(f))
    && Mfpc(s.rsnCapab) && (s.state == State3 || KindOf(f) == Action)
  }

  ghost function CheckedSta(v: View, f: Octets): Sta
    requires Total(v) && |f| >= 24
  {
    v.sta[(Bssid(f), CheckedPeer(f))]
  }

  /** The verdict of rx_mgmt on a frame. */
  ghost predicate IsValid(env: Env, v: View, f: Octets)
    requires Total(v) && |f| >= 24
  {
    IsRobust(KindOf(f)) ==>
      if IsGroup(Da(f)) then
        var r := CheckBip(env, v.bss[Bssid(f)], f); r != BipMissing && r != BipBad
      else if IsProtected(f) then Decrypted(env, CheckedSta(v, f), f).Some?
      else !LacksProtection(CheckedSta(v, f), f)
  }

  // ---- Effects

  ghost function SetSta(v: View, b: Addr, a: Addr, s: Sta): (r: View)
    requires Total(v)
    ensures Total(r)
  {
    v.(sta := v.sta[(b, a) := s])
  }

  ghost function SetBss(v: View, b: Addr, x: Bss): (r: View)
    requires Total(v)
    ensures Total(r)
  {
    v.(bss := v.bss[b := x])
  }

  function SetRsc(s: Sta, f: Octets): Sta
    requires |f| >= 40
  {
    if Da(f) == Bssid(f) then s.(rscToDs := GetPn(f[24..])) else s.(rscFromDs := GetPn(f[24..]))
  }

  /** What checking a frame records: the packet number of a frame that verifies. */
  ghost function AfterCheck(env: Env, v: View, f: Octets): (r: View)
    requires Total(v) && |f| >= 24
    ensures Total(r)
  {
    if !IsRobust(KindOf(f)) then v
    else if IsGroup(Da(f)) then
      match CheckBip(env, v.bss[Bssid(f)], f)
      case BipGood(keyid) => SetBss(v, Bssid(f), SetIpn(v.bss[Bssid(f)], keyid, MmieIpn(f)))
      case _ => v
    else if IsProtected(f) && Decrypted(env, CheckedSta(v, f), f).Some? then
      SetSta(v, Bssid(f), CheckedPeer(f), SetRsc(CheckedSta(v, f), f))
    else v
  }

  /** The frame as the handlers see it. */
  ghost function Clear(env: Env, v: View, f: Octets): (r: Octets)
    requires Total(v) && |f| >= 24
    ensures |r| >= 24
  {
    if IsRobust(KindOf(f)) && !IsGroup(Da(f)) && IsProtected(f) && Decrypted(env, CheckedSta(v, f), f).Some?
    then Decrypted(env, CheckedSta(v, f), f).value else f
  }

  function Disassociated(s: Sta): Sta {
    if s.state == State3 then s.(state := State2) else s
  }

  function LinksDown(links: seq<Link>, a: Addr): (r: seq<Link>)
    ensures |r| == |links|
  {
    seq(|links|, k requires 0 <= k < |links| =>
      if links[k].initiator == a || links[k].responder == a then links[k].(up := false) else links[k])
  }

  ghost function ForAll(v: View, b: Addr, change: Sta -> Sta): (r: View)
    requires Total(v)
    ensures Total(r)
  {
    v.(sta := imap k: (Addr, Addr) {:trigger v.sta[k]} | k in v.sta :: if k.0 == b then change(v.sta[k]) else v.sta[k])
  }

  function Deauthenticated(s: Sta): Sta { s.(state := State1) }

  /** rx_mgmt_deauth and rx_mgmt_disassoc */
  ghost function Leave(v: View, f: Octets, valid: bool, change: Sta -> Sta): (r: View)
    requires Total(v) && |f| >= 24
    ensures Total(r)
  {
    var b, a := Bssid(f), Peer(f);
    if IsGroup(b) || |f| < 26 || !valid then v
    else if IsGroup(a) then (if IsBroadcast(Da(f)) then ForAll(v, b, change) else v)
    else
      var w := SetSta(v, b, a, change(v.sta[(b, a)]));
      SetBss(w, b, w.bss[b].(links := LinksDown(w.bss[b].links, a)))
  }

  function Authenticated(s: Sta, f: Octets): Sta
    requires |f| >= 30
  {
    if U16(f, 24) == 0 && U16(f, 26) == 2 && U16(f, 28) == 0 && s.state == State1 then s.(state := State2) else s
  }

  function Associated(s: Sta, f: Octets): Sta
    requires |f| >= 30
  {
    if U16(f, 26) == 0 then s.(state := State3, aid := U16(f, 28) & 0xc000) else s
  }

  const CIPHER_WEP40: bv16 := 0x0002
  const PROTO_RSN: bv16 := 0x0002

  predicate Privacy(capab: bv16) { capab & 0x0010 != 0 }

  /** What a station uses according to an element of its request; its group ciphers are not recorded. */
  function Using(s: Sta, ie: Octets, d: IeData): Sta {
    s.(rsnIe := Some(ie), rsnCapab := d.capab,
       security := s.security.(proto := d.security.proto, pairwise := d.security.pairwise, keyMgmt := d.security.keyMgmt))
  }

  function UsingNone(s: Sta): Sta {
    s.(rsnIe := None, rsnCapab := 0,
       security := s.security.(proto := 0, pairwise := if Privacy(s.request.capabInfo) then CIPHER_WEP40 else 0, keyMgmt := 0))
  }

  /** sta_update_assoc: only elements that the BSS has too are used, the RSN element before the WPA element. */
  function Requested(env: Env, s: Sta, b: Bss, e: Elems): Sta {
    if e.rsnIe.Some? && b.rsnIe.Some? then Using(s, e.rsnIe.value, env.parseRsn(e.rsnIe.value))
    else if e.wpaIe.Some? && b.wpaIe.Some? then Using(s, e.wpaIe.value, env.parseWpa(e.wpaIe.value))
    else UsingNone(s)
  }

  ghost function Request(env: Env, v: View, f: Octets, body: nat): (r: View)
    requires Total(v) && |f| >= 24 && body >= 28
    ensures Total(r)
  {
    var b, a := Bssid(f), Sa(f);
    if IsGroup(b) || IsGroup(a) || |f| < body then v
    else match env.parse(f[body..])
      case None => v
      case Some(e) =>
        var s := v.sta[(b, a)].(request := AssocRequest(U16(f, 24), U16(f, 26), f[body..]));
        SetSta(v, b, a, Requested(env, s, v.bss[b], e))
  }

  /** What an element adds: nothing if it is missing or cannot be parsed. */
  function Parsed(ie: Option<Octets>, parse: Octets -> IeData): IeData {
    if ie.Some? && parse(ie.value).ok then parse(ie.value) else IeData(false, NO_SECURITY, 0)
  }

  function Both(x: Security, y: Security): Security {
    Security(x.proto | y.proto, x.pairwise | y.pairwise, x.group | y.group, x.keyMgmt | y.keyMgmt, x.mgmtGroup | y.mgmtGroup)
  }

  /** The capabilities that a BSS advertises in its elements; those of the RSN element win. */
  function Advertised(env: Env, wpaIe: Option<Octets>, rsnIe: Option<Octets>): bv16 {
    var r := Parsed(rsnIe, env.parseRsn);
    if r.ok then r.capab else Parsed(wpaIe, env.parseWpa).capab
  }

  /** The ciphers and key management of both elements; WEP if there is none and the BSS asks for privacy. */
  function AdvertisedSecurity(env: Env, wpaIe: Option<Octets>, rsnIe: Option<Octets>, capabInfo: bv16): Security {
    var x := Both(Parsed(wpaIe, env.parseWpa).security, Parsed(rsnIe, env.parseRsn).security);
    var y := if x.proto & PROTO_RSN != 0 && Mfpc(Advertised(env, wpaIe, rsnIe)) then x else x.(mgmtGroup := 0);
    if wpaIe == None && rsnIe == None && Privacy(capabInfo) then y.(group := CIPHER_WEP40) else y
  }

  /** bss_update */
  function Updated(env: Env, b: Bss, e: Elems): Bss {
    if e.ssid == None || |e.ssid.value| > 32 then b
    else
      var n := b.(ssid := e.ssid.value, wpaIe := e.wpaIe, rsnIe := e.rsnIe);
      if b.capabInfo == b.prevCapabInfo && b.wpaIe == e.wpaIe && b.rsnIe == e.rsnIe then n
      else n.(prevCapabInfo := b.capabInfo, rsnCapab := Advertised(env, e.wpaIe, e.rsnIe),
              security := AdvertisedSecurity(env, e.wpaIe, e.rsnIe, b.capabInfo))
  }

  function Announced(env: Env, b: Bss, f: Octets): Bss
    requires |f| >= 36
  {
    var n := b.(capabInfo := U16(f, 34));
    match env.parse(f[36..])
    case None => n
    case Some(e) => Updated(env, n, e)
  }

  ghost function Announce(env: Env, v: View, f: Octets): (r: View)
    requires Total(v) && |f| >= 36
    ensures Total(r)
  {
    if IsGroup(Bssid(f)) then v else SetBss(v, Bssid(f), Announced(env, v.bss[Bssid(f)], f))
  }

  /** The handler of each kind of frame. */
  ghost function Handle(env: Env, v: View, k: Kind, f: Octets, valid: bool): (r: View)
    requires Total(v) && |f| >= 24 && (k == Beacon || k == ProbeResp ==> |f| >= 36)
    ensures Total(r)
  {
    var b := Bssid(f);
    match k
    case Beacon => Announce(env, v, f)
    case ProbeResp => Announce(env, v, f)
    case Auth =>
      if IsGroup(b) || IsGroup(Peer(f)) || |f| < 30 then v
      else SetSta(v, b, Peer(f), Authenticated(v.sta[(b, Peer(f))], f))
    case Deauth => Leave(v, f, valid, Deauthenticated)
    case Disassoc => Leave(v, f, valid, Disassociated)
    case AssocReq => Request(env, v, f, 28)
    case ReassocReq => Request(env, v, f, 34)
    case AssocResp =>
      if IsGroup(b) || IsGroup(Da(f)) || |f| < 30 then v else SetSta(v, b, Da(f), Associated(v.sta[(b, Da(f))], f))
    case ReassocResp =>
      if IsGroup(b) || IsGroup(Da(f)) || |f| < 30 then v else SetSta(v, b, Da(f), Associated(v.sta[(b, Da(f))], f))
    case Action => v
    case Other => v
  }

  /** rx_mgmt */
  ghost function Step(env: Env, v: View, f: Octets): (r: View)
    requires Total(v) && (|f| < 24 || Complete(f))
    ensures Total(r)
  {
    if |f| < 24 then v
    else Handle(env, AfterCheck(env, v, f), KindOf(f), Clear(env, v, f), IsValid(env, v, f))
  }
}
