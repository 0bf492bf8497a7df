/**
 The tables of BSSs and stations in memory (hostap08/wlantest/rx_mgmt.c, bss.c and sta.c).  Entries are created
 by the first frame that mentions an address; allocation succeeds.
 */
module RxMgmtTable {
  import opened Octets
  import opened Ieee80211
  import opened Wrappers
  import opened Ccmp
  import opened RxMgmt
  import opened RxMgmtRuns
  import opened RxMgmtHistory
  import CcmpFrames

  datatype BssEntry = BssEntry(bss: Bss, stas: map<Addr, Sta>)
  type Table = map<Addr, BssEntry>

  // ---- What a table says about every address

  function StaAt(t: Table, b: Addr, a: Addr): Sta {
    if b in t && a in t[b].stas then t[b].stas[a] else NEW_STA
  }

  function BssAt(t: Table, b: Addr): Bss {
    if b in t then t[b].bss else NEW_BSS
  }

  ghost function ViewOf(t: Table): (v: View)
    ensures Total(v)
  {
    View(imap b: Addr, a: Addr :: (b, a) := StaAt(t, b, a), imap b: Addr :: BssAt(t, b))
  }

  function WithBss(t: Table, b: Addr): (r: Table)
    ensures b in r
  {
    if b in t then t else t[b := BssEntry(NEW_BSS, map[])]
  }

  function WithSta(t: Table, b: Addr, a: Addr): (r: Table)
    requires b in t
    ensures b in r && a in r[b].stas
  {
    if a in t[b].stas then t else t[b := t[b].(stas := t[b].stas[a := NEW_STA])]
  }

  function PutSta(t: Table, b: Addr, a: Addr, s: Sta): (r: Table)
    requires b in t
    ensures b in r && a in r[b].stas
  {
    t[b := t[b].(stas := t[b].stas[a := s])]
  }

  function PutBss(t: Table, b: Addr, x: Bss): (r: Table)
    requires b in t
    ensures b in r && r[b].stas == t[b].stas
  {
    t[b := t[b].(bss := x)]
  }

  lemma WithBssView(t: Table, b: Addr)
    ensures ViewOf(WithBss(t, b)) == ViewOf(t)
  {
  }

  lemma WithStaView(t: Table, b: Addr, a: Addr)
    requires b in t
    ensures ViewOf(WithSta(t, b, a)) == ViewOf(t)
  {
  }

  lemma PutStaView(t: Table, b: Addr, a: Addr, s: Sta)
    requires b in t
    ensures ViewOf(PutSta(t, b, a, s)) == SetSta(ViewOf(t), b, a, s)
  {
  }

  lemma PutBssView(t: Table, b: Addr, x: Bss)
    requires b in t
    ensures ViewOf(PutBss(t, b, x)) == SetBss(ViewOf(t), b, x)
  {
  }

  /** The stations of one BSS have changed, the rest of the table has not. */
  ghost predicate ChangedIn(t: Table, t': Table, b: Addr, todo: set<Addr>, change: Sta -> Sta) {
    && b in t && b in t' && t'[b].bss == t[b].bss && t'[b].stas.Keys == t[b].stas.Keys
    && (forall c :: c != b ==> (c in t' <==> c in t) && (c in t ==> t'[c] == t[c]))
    && forall a :: a in t[b].stas ==> t'[b].stas[a] == if a in todo then t[b].stas[a] else change(t[b].stas[a])
  }

  lemma ChangedStart(t: Table, b: Addr, change: Sta -> Sta)
    requires b in t
    ensures ChangedIn(t, t, b, t[b].stas.Keys, change)
  {
  }

  lemma ChangedNext(t: Table, t': Table, b: Addr, todo: set<Addr>, change: Sta -> Sta, a: Addr, s: Sta)
    requires ChangedIn(t, t', b, todo, change) && a in todo && a in t[b].stas && s == change(t[b].stas[a])
    ensures ChangedIn(t, PutSta(t', b, a, s), b, todo - {a}, change)
  {
    var r := PutSta(t', b, a, s);
    assert r[b].stas.Keys == t[b].stas.Keys;
    forall x | x in t[b].stas
      ensures r[b].stas[x] == if x in todo - {a} then t[b].stas[x] else change(t[b].stas[x])
    {
      assert x != a ==> r[b].stas[x] == t'[b].stas[x];
    }
  }

  lemma ChangedSta(t: Table, t': Table, b: Addr, change: Sta -> Sta, c: Addr, a: Addr)
    requires ChangedIn(t, t', b, {}, change) && change(NEW_STA) == NEW_STA
    ensures StaAt(t', c, a) == if c == b then change(StaAt(t, c, a)) else StaAt(t, c, a)
  {
    if c == b {
      assert a in t'[b].stas.Keys <==> a in t[b].stas.Keys;
    }
  }

  lemma ChangedView(t: Table, t': Table, b: Addr, change: Sta -> Sta)
    requires ChangedIn(t, t', b, {}, change) && change(NEW_STA) == NEW_STA
    ensures ViewOf(t') == ForAll(ViewOf(t), b, change)
  {
    forall c: Addr, a: Addr
      ensures StaAt(t', c, a) == if c == b then change(StaAt(t, c, a)) else StaAt(t, c, a)
    {
      ChangedSta(t, t', b, change, c, a);
    }
    forall c: Addr ensures BssAt(t', c) == BssAt(t, c) {
    }
    PointwiseView(t, t', b, change);
  }

  lemma PointwiseView(t: Table, t': Table, b: Addr, change: Sta -> Sta)
    requires forall c: Addr, a: Addr ::
      StaAt(t', c, a) == if c == b then change(StaAt(t, c, a)) else StaAt(t, c, a)
    requires forall c: Addr :: BssAt(t', c) == BssAt(t, c)
    ensures ViewOf(t') == ForAll(ViewOf(t), b, change)
  {
  }

  lemma Untouched(v: View, b: Addr, a: Addr)
    requires Total(v)
    ensures SetSta(v, b, a, v.sta[(b, a)]) == v
  {
  }

  /** One more element is added if it could be parsed. */
  method AddElement(s: Security, capab: bv16, d: IeData) returns (r: Security, c: bv16)
    ensures r == (if d.ok then Both(s, d.security) else s) && c == if d.ok then d.capab else capab
  {
    r, c := s, capab;
    if d.ok {
      r := Security(s.proto | d.security.proto, s.pairwise | d.security.pairwise, s.group | d.security.group,
                    s.keyMgmt | d.security.keyMgmt, s.mgmtGroup | d.security.mgmtGroup);
      c := d.capab;
    }
  }

  lemma OrNothing(x: bv16)
    ensures x | 0 == x && 0 | x == x
  {
  }

  lemma BothNothing(s: Security)
    ensures Both(s, NO_SECURITY) == s && Both(NO_SECURITY, s) == s
  {
    OrNothing(s.proto);
    OrNothing(s.pairwise);
    OrNothing(s.group);
    OrNothing(s.keyMgmt);
    OrNothing(s.mgmtGroup);
  }

  /** Adding the elements one by one is adding what each of them says. */
  lemma SecurityIs(env: Env, wpaIe: Option<Octets>, rsnIe: Option<Octets>, s: Security)
    requires var w := if wpaIe.Some? && env.parseWpa(wpaIe.value).ok
        then Both(NO_SECURITY, env.parseWpa(wpaIe.value).security) else NO_SECURITY;
      s == if rsnIe.Some? && env.parseRsn(rsnIe.value).ok then Both(w, env.parseRsn(rsnIe.value).security) else w
    ensures s == Both(Parsed(wpaIe, env.parseWpa).security, Parsed(rsnIe, env.parseRsn).security)
  {
    BothNothing(Parsed(wpaIe, env.parseWpa).security);
    BothNothing(Parsed(rsnIe, env.parseRsn).security);
  }

  method TakeLinksDown(links: seq<Link>, a: Addr) returns (r: seq<Link>)
    ensures r == LinksDown(links, a)
  {
    r := links;
    var k := 0;
    while k < |r|
      invariant 0 <= k <= |r| == |links|
      invariant r[..k] == LinksDown(links, a)[..k] && r[k..] == links[k..]
    {
      assert r[k] == r[k..][0] == links[k];
      if (r[k].initiator == a || r[k].responder == a) && r[k].up {
        r := r[k := r[k].(up := false)];
      }
      k := k + 1;
    }
  }

  class Wlantest {
    const env: Env
    var table: Table

    constructor (env: Env)
      ensures this.env == env && table == map[]
    {
      this.env := env;
      table := map[];
    }

    ghost function Known(): (v: View)
      reads this
      ensures Total(v)
    {
      ViewOf(table)
    }

    method BssGet(bssid: Addr) returns (ok: bool)
      modifies this
      ensures ok == !IsGroup(bssid) && Known() == old(Known())
      ensures table == if ok then WithBss(old(table), bssid) else old(table)
    {
      if IsGroup(bssid) {
        return false;
      }
      WithBssView(table, bssid);
      table := WithBss(table, bssid);
      return true;
    }

    method StaGet(bssid: Addr, addr: Addr) returns (ok: bool)
      requires bssid in table
      modifies this
      ensures ok == !IsGroup(addr) && Known() == old(Known())
      ensures table == if ok then WithSta(old(table), bssid, addr) else old(table)
    {
      if IsGroup(addr) {
        return false;
      }
      WithStaView(table, bssid, addr);
      table := WithSta(table, bssid, addr);
      return true;
    }

    /** Find or create the entries of both addresses. */
    method BothGet(bssid: Addr, addr: Addr) returns (ok: bool)
      modifies this
      ensures ok == (!IsGroup(bssid) && !IsGroup(addr)) && Known() == old(Known())
      ensures !IsGroup(bssid) ==> bssid in table
      ensures ok ==> addr in table[bssid].stas
    {
      ok := BssGet(bssid);
      if ok {
        ok := StaGet(bssid, addr);
      }
    }

    method SetStaEntry(b: Addr, a: Addr, s: Sta)
      requires b in table
      modifies this
      ensures Known() == SetSta(old(Known()), b, a, s) && b in table && a in table[b].stas && table[b].stas[a] == s
      ensures table[b].bss == old(table)[b].bss
    {
      PutStaView(table, b, a, s);
      table := PutSta(table, b, a, s);
    }

    method SetBssEntry(b: Addr, x: Bss)
      requires b in table
      modifies this
      ensures Known() == SetBss(old(Known()), b, x) && b in table && table[b].stas == old(table)[b].stas
    {
      PutBssView(table, b, x);
      table := PutBss(table, b, x);
    }

    method RxAuth(f: Octets)
      requires |f| >= 24
      modifies this
      ensures Known() == Handle(env, old(Known()), Auth, f, true)
    {
      var b, a := Bssid(f), Peer(f);
      var ok := BothGet(b, a);
      if !ok || |f| < 24 + 6 {
        return;
      }
      var s := table[b].stas[a];
      if U16(f, 24) == 0 && U16(f, 26) == 2 && U16(f, 28) == 0 {
        if s.state == State1 {
          s := s.(state := State2);
        }
      }
      SetStaEntry(b, a, s);
    }

    // ---- Deauthentication and disassociation

    method DeauthAllStas(b: Addr)
      requires b in table
      modifies this
      ensures Known() == ForAll(old(Known()), b, Deauthenticated)
      ensures forall a: Addr :: Known().sta[(b, a)].state == State1
    {
      var todo := table[b].stas.Keys;
      ChangedStart(table, b, Deauthenticated);
      while todo != {}
        invariant todo <= old(table)[b].stas.Keys
        invariant ChangedIn(old(table), table, b, todo, Deauthenticated)
        decreases |todo|
      {
        var a :| a in todo;
        var s := table[b].stas[a];
        if s.state != State1 {
          s := s.(state := State1);
        }
        ChangedNext(old(table), table, b, todo, Deauthenticated, a, s);
        table := PutSta(table, b, a, s);
        todo := todo - {a};
      }
      ChangedView(old(table), table, b, Deauthenticated);
    }

    method DisassocAllStas(b: Addr)
      requires b in table
      modifies this
      ensures Known() == ForAll(old(Known()), b, Disassociated)
    {
      var todo := table[b].stas.Keys;
      ChangedStart(table, b, Disassociated);
      while todo != {}
        invariant todo <= old(table)[b].stas.Keys
        invariant ChangedIn(old(table), table, b, todo, Disassociated)
        decreases |todo|
      {
        var a :| a in todo;
        var s := table[b].stas[a];
        if s.state == State3 {
          s := s.(state := State2);
        }
        ChangedNext(old(table), table, b, todo, Disassociated, a, s);
        table := PutSta(table, b, a, s);
        todo := todo - {a};
      }
      ChangedView(old(table), table, b, Disassociated);
    }

    method TdlsLinkDown(b: Addr, a: Addr)
      requires b in table
      modifies this
      ensures var w := old(Known()); Known() == SetBss(w, b, w.bss[b].(links := LinksDown(w.bss[b].links, a)))
    {
      var links := TakeLinksDown(table[b].bss.links, a);
      SetBssEntry(b, table[b].bss.(links := links));
    }

    method RxDeauth(f: Octets, valid: bool)
      requires |f| >= 24
      modifies this
      ensures Known() == Handle(env, old(Known()), Deauth, f, valid)
      ensures forall b: Addr, a: Addr :: valid && |f| >= 26 && Concerns(f, b, a) ==> Known().sta[(b, a)].state == State1
    {
      var b, a := Bssid(f), Peer(f);
      forall c: Addr, d: Addr
        ensures Leave(Known(), f, valid, Deauthenticated).sta[(c, d)] ==
          if valid && |f| >= 26 && Concerns(f, c, d) then Deauthenticated(Known().sta[(c, d)]) else Known().sta[(c, d)]
      {
        LeaveState(Known(), f, valid, Deauthenticated, c, d);
      }
      var ok := BothGet(b, a);
      if IsGroup(b) || |f| < 24 + 2 {
        return;
      }
      if !ok {
        if valid && IsBroadcast(Da(f)) {
          DeauthAllStas(b);
        }
        return;
      }
      var s := table[b].stas[a];
      if !valid {
        return;
      }
      if s.state != State1 {
        s := s.(state := State1);
      }
      SetStaEntry(b, a, s);
      TdlsLinkDown(b, a);
    }

    method RxDisassoc(f: Octets, valid: bool)
      requires |f| >= 24
      modifies this
      ensures Known() == Handle(env, old(Known()), Disassoc, f, valid)
    {
      var b, a := Bssid(f), Peer(f);
      var ok := BothGet(b, a);
      if IsGroup(b) || |f| < 24 + 2 {
        return;
      }
      if !ok {
        if valid && IsBroadcast(Da(f)) {
          DisassocAllStas(b);
        }
        return;
      }
      var s := table[b].stas[a];
      if !valid {
        return;
      }
      if s.state == State3 {
        s := s.(state := State2);
      }
      SetStaEntry(b, a, s);
      TdlsLinkDown(b, a);
    }

    // ---- Association and BSS information

    method RxAnnounce(f: Octets, ghost k: Kind)
      requires |f| >= 36 && (k == Beacon || k == ProbeResp)
      modifies this
      ensures Known() == Handle(env, old(Known()), k, f, true)
    {
      var b := Bssid(f);
      var ok := BssGet(b);
      if !ok {
        return;
      }
      var x := table[b].bss.(capabInfo := U16(f, 34));
      var e := env.parse(f[36..]);
      if e.Some? {
        x := BssUpdate(x, e.value);
      }
      SetBssEntry(b, x);
    }

    method BssUpdate(b: Bss, e: Elems) returns (x: Bss)
      ensures x == Updated(env, b, e)
    {
      var update := b.capabInfo != b.prevCapabInfo;
      if e.ssid == None || |e.ssid.value| > 32 {
        return b;
      }
      x := b.(ssid := e.ssid.value);
      if x.rsnIe != e.rsnIe {
        update := true;
      }
      x := x.(rsnIe := e.rsnIe);
      if x.wpaIe != e.wpaIe {
        update := true;
      }
      x := x.(wpaIe := e.wpaIe);
      if !update {
        return;
      }
      x := x.(prevCapabInfo := x.capabInfo);
      x := ParseElements(x);
    }

    /** Start from nothing and add what each element says. */
    method ParseElements(b: Bss) returns (x: Bss)
      ensures x == b.(rsnCapab := Advertised(env, b.wpaIe, b.rsnIe),
                      security := AdvertisedSecurity(env, b.wpaIe, b.rsnIe, b.capabInfo))
    {
      var s, capab := NO_SECURITY, 0;
      if b.wpaIe.Some? {
        s, capab := AddElement(s, capab, env.parseWpa(b.wpaIe.value));
      }
      if b.rsnIe.Some? {
        s, capab := AddElement(s, capab, env.parseRsn(b.rsnIe.value));
      }
      SecurityIs(env, b.wpaIe, b.rsnIe, s);
      if s.proto & PROTO_RSN == 0 || !Mfpc(capab) {
        s := s.(mgmtGroup := 0);
      }
      if b.wpaIe == None && b.rsnIe == None && Privacy(b.capabInfo) {
        s := s.(group := CIPHER_WEP40);
      }
      x := b.(rsnCapab := capab, security := s);
    }

    method RxAssocReq(f: Octets, body: nat)
      requires |f| >= 24 && body >= 28
      modifies this
      ensures Known() == Request(env, old(Known()), f, body)
    {
      var b, a := Bssid(f), Sa(f);
      var ok := BothGet(b, a);
      if !ok || |f| < body {
        return;
      }
      var e := env.parse(f[body..]);
      if e == None {
        return;
      }
      var s := table[b].stas[a].(request := AssocRequest(U16(f, 24), U16(f, 26), f[body..]));
      s := StaUpdateAssoc(s, table[b].bss, e.value);
      SetStaEntry(b, a, s);
    }

    method StaUpdateAssoc(s: Sta, b: Bss, e: Elems) returns (r: Sta)
      ensures r == Requested(env, s, b, e)
    {
      var wpaIe := if b.wpaIe == None then None else e.wpaIe;
      var rsnIe := if b.rsnIe == None then None else e.rsnIe;
      if rsnIe == None && wpaIe == None {
        r := s.(rsnIe := None, rsnCapab := 0, security := s.security.(proto := 0, pairwise := 0, keyMgmt := 0));
        if Privacy(r.request.capabInfo) {
          r := r.(security := r.security.(pairwise := CIPHER_WEP40));
        }
        return;
      }
      var data;
      if rsnIe.Some? {
        r := s.(rsnIe := rsnIe);
        data := env.parseRsn(rsnIe.value);
      } else {
        r := s.(rsnIe := wpaIe);
        data := env.parseWpa(wpaIe.value);
      }
      r := r.(rsnCapab := data.capab,
              security := r.security.(proto := data.security.proto, pairwise := data.security.pairwise,
                                      keyMgmt := data.security.keyMgmt));
    }

    method RxAssocResp(f: Octets, ghost k: Kind)
      requires |f| >= 24 && (k == AssocResp || k == ReassocResp)
      modifies this
      ensures Known() == Handle(env, old(Known()), k, f, true)
    {
      var b, a := Bssid(f), Da(f);
      var ok := BothGet(b, a);
      if !ok || |f| < 24 + 6 {
        return;
      }
      var s := table[b].stas[a];
      ghost var v := Known();
      if U16(f, 26) != 0 {
        Untouched(v, b, a);
        return;
      }
      s := s.(aid := U16(f, 28) & 0xc000);
      if s.state != State3 {
        s := s.(state := State3);
      }
      SetStaEntry(b, a, s);
    }

    // ---- Checks

    method RunBipCheck(f: Octets) returns (ok: bool)
      requires |f| >= 24 && IsRobust(KindOf(f)) && IsGroup(Da(f))
      modifies this
      ensures ok == IsValid(env, old(Known()), f) && Known() == AfterCheck(env, old(Known()), f)
    {
      ghost var v := Known();
      var b := Bssid(f);
      if KindOf(f) == Action && (|f| < 24 + 1 || f[24] == ACTION_PUBLIC) {
        return true;
      }
      var found := BssGet(b);
      if !found {
        return true;
      }
      if !HasMmie(f) {
        if Mfpc(table[b].bss.rsnCapab) {
          return false;
        }
        return true;
      }
      ok := CheckMmie(b, f);
    }

    method CheckMmie(b: Addr, f: Octets) returns (ok: bool)
      requires |f| >= 24 && HasMmie(f) && b == Bssid(f) && b in table && !IsGroup(b)
      requires IsRobust(KindOf(f)) && IsGroup(Da(f)) && !IsPublicAction(f)
      modifies this
      ensures ok == IsValid(env, old(Known()), f) && Known() == AfterCheck(env, old(Known()), f)
    {
      var keyid := MmieKeyId(f);
      if keyid < 4 || keyid > 5 {
        return true;
      }
      var x := table[b].bss;
      var k := if keyid == 4 then x.igtk4 else x.igtk5;
      if k == None {
        return true;
      }
      if !MmieVerifies(env, k.value.key, f) {
        return false;
      }
      SetBssEntry(b, SetIpn(x, keyid, MmieIpn(f)));
      return true;
    }

    method MgmtCcmpDecrypt(f: Octets) returns (r: Option<Octets>)
      requires |f| >= 24 && IsRobust(KindOf(f)) && !IsGroup(Da(f)) && IsProtected(f)
      modifies this
      ensures r == Decrypted(env, CheckedSta(old(Known()), f), f)
      ensures Known() == AfterCheck(env, old(Known()), f)
    {
      var b, a := Bssid(f), CheckedPeer(f);
      var ok := BothGet(b, a);
      if !ok {
        return None;
      }
      var s := table[b].stas[a];
      if s.ptk == None || |f| < 24 + 4 || f[27] & 0x20 == 0 {
        return None;
      }
      if |f| < 40 {
        return None;
      }
      r := DecryptBody(s.ptk.value, f);
      if r == None {
        return;
      }
      var pn := GetPn(f[24..]);
      SetStaEntry(b, a, if Da(f) == b then s.(rscToDs := pn) else s.(rscFromDs := pn));
    }

    method DecryptBody(tk: Octets, f: Octets) returns (r: Option<Octets>)
      requires |f| >= 40 && IsHeader(f)
      ensures var m := CcmpFrames.Decapsulate(env.aes(tk), f, f[24..]);
        r == if m == None then None else Some(f[..24] + m.value)
    {
      var plain, n := CcmpFrames.CcmpDecrypt(env.aes(tk), f, f[24..]);
      if plain == null {
        return None;
      }
      return Some(f[..24] + plain[..n]);
    }

    method CheckMgmtCcmp(f: Octets) returns (ok: bool)
      requires |f| >= 24
      modifies this
      ensures ok == !LacksProtection(CheckedSta(old(Known()), f), f) && Known() == old(Known())
    {
      if KindOf(f) == Action && |f| > 24 && f[24] == ACTION_PUBLIC {
        return true;
      }
      var b, a := Bssid(f), CheckedPeer(f);
      var found := BothGet(b, a);
      if !found {
        return true;
      }
      var s := table[b].stas[a];
      return !(Mfpc(s.rsnCapab) && (s.state == State3 || KindOf(f) == Action));
    }

    // ---- rx_mgmt

    method Check(f: Octets) returns (valid: bool, data: Octets)
      requires |f| >= 24
      modifies this
      ensures valid == IsValid(env, old(Known()), f) && Known() == AfterCheck(env, old(Known()), f)
      ensures data == Clear(env, old(Known()), f)
    {
      valid, data := true, f;
      if !IsRobust(KindOf(f)) {
        return;
      }
      if IsGroup(Da(f)) {
        valid := RunBipCheck(f);
      } else if IsProtected(f) {
        var r := MgmtCcmpDecrypt(f);
        if r.Some? {
          data := r.value;
        } else {
          valid := false;
        }
      } else {
        valid := CheckMgmtCcmp(f);
      }
    }

    method Receive(f: Octets)
      requires |f| < 24 || Complete(f)
      modifies this
      ensures Known() == Step(env, old(Known()), f)
      ensures forall b: Addr, a: Addr :: Known().sta[(b, a)].state == StateTold(env, old(Known()), f, b, a)
    {
      forall b: Addr, a: Addr ensures Step(env, Known(), f).sta[(b, a)].state == StateTold(env, Known(), f, b, a) {
        StateAfter(env, Known(), f, b, a);
      }
      if |f| < 24 {
        return;
      }
      var valid, data := Check(f);
      var k := KindOf(f);
      Dispatch(k, data, valid);
    }

    method Dispatch(k: Kind, f: Octets, valid: bool)
      requires |f| >= 24 && (k == Beacon || k == ProbeResp ==> |f| >= 36)
      modifies this
      ensures Known() == Handle(env, old(Known()), k, f, valid)
    {
      match k
      case Beacon => RxAnnounce(f, k);
      case ProbeResp => RxAnnounce(f, k);
      case Auth => RxAuth(f);
      case Deauth => RxDeauth(f, valid);
      case AssocReq => RxAssocReq(f, 24 + 4);
      case AssocResp => RxAssocResp(f, k);
      case ReassocReq => RxAssocReq(f, 24 + 4 + 6);
      case ReassocResp => RxAssocResp(f, k);
      case Disassoc => RxDisassoc(f, valid);
      case Action => { var ok := BothGet(Bssid(f), Peer(f)); }
      case Other =>
    }

    method ReceiveAll(fs: seq<Octets>)
      requires AllComplete(fs)
      modifies this
      ensures Known() == Run(env, old(Known()), fs)
      ensures Known() == Run(env, old(Known()), Accepted(env, old(Known()), fs))
    {
      ghost var v := Known();
      var k := 0;
      assert fs[0..] == fs;
      while k < |fs|
        invariant 0 <= k <= |fs| && Run(env, Known(), fs[k..]) == Run(env, v, fs)
      {
        assert fs[k..][0] == fs[k] && fs[k..][1..] == fs[k + 1..];
        Receive(fs[k]);
        k := k + 1;
      }
      RejectedFramesDoNotMatter(env, v, fs);
    }
  }
}
