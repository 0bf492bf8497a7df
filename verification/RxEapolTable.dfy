/** The handlers of captured EAPOL-Key frames (hostap08/wlantest/rx_eapol.c); allocation succeeds. */
module RxEapolTable {
  import opened Octets
  import opened Ieee80211
  import opened Wrappers
  import opened RxEapol
  import opened RxEapolRuns
  import opened RxEapolLearning

  lemma {:induction false} DeriveRest(c: Crypto, p: seq<Octets>, q: seq<Octets>, b: Addr, a: Addr, s: Sta, f: Octets)
    requires |f| >= FIXED_LEN
    requires forall k :: 0 <= k < |p| ==> !MicVerifies(c, PtkFrom(c, p[k], b, a, s).kck, f)
    ensures Derive(c, p + q, b, a, s, f) == Derive(c, q, b, a, s, f)
  {
    if p == [] {
      assert p + q == q;
    } else {
      assert (p + q)[0] == p[0] && (p + q)[1..] == p[1..] + q;
      DeriveRest(c, p[1..], q, b, a, s, f);
    }
  }

  lemma {:induction false} DeriveAt(c: Crypto, p: seq<Octets>, k: nat, b: Addr, a: Addr, s: Sta, f: Octets)
    requires |f| >= FIXED_LEN && k < |p| && MicVerifies(c, PtkFrom(c, p[k], b, a, s).kck, f)
    requires forall j :: 0 <= j < k ==> !MicVerifies(c, PtkFrom(c, p[j], b, a, s).kck, f)
    ensures Derive(c, p, b, a, s, f) == s.(ptk := Some(PtkFrom(c, p[k], b, a, s)))
  {
    if k > 0 {
      assert p[1..][k - 1] == p[k];
      DeriveAt(c, p[1..], k - 1, b, a, s, f);
    }
  }

  class KeyTracker {
    const crypto: Crypto
    var bsss: map<Addr, Bss>
    var pmks: seq<Octets>

    constructor (c: Crypto)
      ensures crypto == c && Known() == Run(c, [])
    {
      crypto := c;
      bsss := map[];
      pmks := [];
    }

    function Known(): World
      reads this
    {
      World(bsss, pmks)
    }

    method CheckMic(kck: Octets, f: Octets) returns (ok: bool)
      requires |f| >= FIXED_LEN
      ensures ok == MicVerifies(crypto, kck, f)
    {
      var buf := f;
      var rxMic := buf[81..97];
      buf := buf[..81] + Zeros(16) + buf[97..];
      var mic := crypto.mic(kck, Version(f), buf);
      ok := mic.Some? && mic.value == rxMic;
    }

    method TryPmk(b: Addr, a: Addr, s: Sta, f: Octets, pmk: Octets) returns (ok: bool, r: Sta)
      requires |f| >= FIXED_LEN
      ensures ok == MicVerifies(crypto, PtkFrom(crypto, pmk, b, a, s).kck, f)
      ensures r == if ok then s.(ptk := Some(PtkFrom(crypto, pmk, b, a, s))) else s
    {
      var ptk := crypto.prf(PrfInput(pmk, b, a, s.anonce, s.snonce, s.tkip, s.sha256));
      ok := CheckMic(ptk.kck, f);
      r := if ok then s.(ptk := Some(ptk)) else s;
    }

    /** Try every PMK of one list. */
    method TryPmks(list: seq<Octets>, b: Addr, a: Addr, s: Sta, f: Octets) returns (ok: bool, r: Sta)
      requires |f| >= FIXED_LEN
      ensures !ok ==> r == s && forall k :: 0 <= k < |list| ==> !MicVerifies(crypto, PtkFrom(crypto, list[k], b, a, s).kck, f)
      ensures ok ==> forall more :: r == Derive(crypto, list + more, b, a, s, f)
    {
      var k := 0;
      while k < |list|
        invariant 0 <= k <= |list|
        invariant forall j :: 0 <= j < k ==> !MicVerifies(crypto, PtkFrom(crypto, list[j], b, a, s).kck, f)
      {
        ok, r := TryPmk(b, a, s, f, list[k]);
        if ok {
          forall more ensures r == Derive(crypto, list + more, b, a, s, f) {
            var all := list + more;
            assert forall j :: 0 <= j <= k ==> all[j] == list[j];
            DeriveAt(crypto, all, k, b, a, s, f);
          }
          return;
        }
        k := k + 1;
      }
      return false, s;
    }

    method DerivePtk(bssPmks: seq<Octets>, b: Addr, a: Addr, s: Sta, f: Octets) returns (r: Sta)
      requires |f| >= FIXED_LEN
      ensures r == Derive(crypto, bssPmks + pmks, b, a, s, f)
    {
      var ok;
      ok, r := TryPmks(bssPmks, b, a, s, f);
      if ok {
        return;
      }
      DeriveRest(crypto, bssPmks, pmks, b, a, s, f);
      ok, r := TryPmks(pmks, b, a, s, f);
      if ok {
        assert pmks + [] == pmks;
      } else {
        DeriveRest(crypto, pmks, [], b, a, s, f);
        assert pmks + [] == pmks;
      }
    }

    method LearnKdeKeys(x: Bss, d: Octets, f: Octets) returns (y: Bss)
      requires |f| >= FIXED_LEN
      ensures y == LearnKdes(crypto, x, d, f)
    {
      var k := crypto.parse(d);
      y := x;
      if k == None {
        return;
      }
      var gtk, igtk := k.value.gtk, k.value.igtk;
      if gtk.Some? {
        if |gtk.value| >= 2 && |gtk.value| <= 2 + 32 {
          y := StoreGtk(y, gtk.value, f[65..73]);
        }
      }
      if igtk.Some? {
        if |igtk.value| == 24 {
          y := StoreIgtk(y, igtk.value);
        }
      }
    }

    method StoreGtk(x: Bss, gtk: Octets, rsc: Octets) returns (y: Bss)
      requires 2 <= |gtk| <= 34 && |rsc| == 8
      ensures y == x.(gtk := x.gtk[GtkId(gtk) := GroupKey(gtk[2..], PnOf(rsc))], gtkIdx := GtkId(gtk))
    {
      var id := (gtk[0] & 0x03) as nat;
      var pn := Reversed(rsc[..6]);
      assert pn == PnOf(rsc);
      y := x.(gtk := x.gtk[id := GroupKey(gtk[2..], pn)], gtkIdx := id);
    }

    method StoreIgtk(x: Bss, igtk: Octets) returns (y: Bss)
      requires |igtk| == 24
      ensures y == if IgtkId(igtk) > 5 then x else
        x.(igtk := x.igtk[IgtkId(igtk) := GroupKey(igtk[8..], PnOf(igtk[2..8]))], igtkIdx := IgtkId(igtk))
    {
      y := x;
      var id := Le16(igtk[..2]) as nat;
      if id <= 5 {
        var pn := Reversed(igtk[2..8]);
        assert pn == PnOf(igtk[2..8]);
        y := x.(igtk := x.igtk[id := GroupKey(igtk[8..], pn)], igtkIdx := id);
      }
    }

    /** Six octets in the opposite order. */
    method Reversed(rsc: Octets) returns (pn: Octets)
      requires |rsc| == 6
      ensures |pn| == 6 && forall k :: 0 <= k < 6 ==> pn[k] == rsc[5 - k]
    {
      var a := new bv8[6];
      var k := 0;
      while k < 6
        invariant 0 <= k <= 6 && forall j :: 0 <= j < k ==> a[j] == rsc[5 - j]
      {
        a[k] := rsc[5 - k];
        k := k + 1;
      }
      pn := a[..];
    }

    method RxPairwise2(x: Bss, b: Addr, a: Addr, f: Octets) returns (y: Bss)
      requires a in x.stas && |f| >= FIXED_LEN
      ensures y == OnPairwise2(crypto, pmks, x, b, a, f)
    {
      var s := x.stas[a].(snonce := Nonce(f));
      s := DerivePtk(x.pmks, b, a, s, f);
      y := x.(stas := x.stas[a := s]);
    }

    method RxPairwise3(x: Bss, b: Addr, a: Addr, f: Octets) returns (y: Bss)
      requires a in x.stas && WellFormed(f)
      ensures y == OnPairwise3(crypto, pmks, x, b, a, f)
      ensures a in y.stas && y.stas[a].anonce == Nonce(f)
      ensures match Revealed(crypto, y.stas[a].ptk, f)
        case None => SameGroupKeys(x, y)
        case Some(k) => Learned(x, y, k, f)
    {
      Pairwise3Keeps(crypto, pmks, x, b, a, f);
      Pairwise3Group(crypto, pmks, x, b, a, f);
      DeriveKeepsNonces(crypto, x.pmks + pmks, b, a, x.stas[a].(anonce := Nonce(f)), f);
      var s := x.stas[a];
      var recalc := s.anonce != Nonce(f);
      s := s.(anonce := Nonce(f));
      if recalc {
        s := DerivePtk(x.pmks, b, a, s, f);
      }
      y := x.(stas := x.stas[a := s]);
      if s.ptk == None {
        return;
      }
      var ok := CheckMic(s.ptk.value.kck, f);
      if !ok {
        return;
      }
      var d := if Encrypted(f) then crypto.decrypt(s.ptk.value.kek, Version(f), f) else Some(KeyData(f));
      if d.Some? {
        y := LearnKdeKeys(y, d.value, f);
      }
    }

    method RxGroup1(x: Bss, a: Addr, f: Octets) returns (y: Bss)
      requires a in x.stas && |f| >= FIXED_LEN
      ensures y == OnGroup1(crypto, x, a, f)
      ensures WellFormed(f) && x.stas[a].rsn ==>
        match (if f[5] & 0x10 == 0 then None else Revealed(crypto, x.stas[a].ptk, f))
        case None => SameGroupKeys(x, y)
        case Some(k) => Learned(x, y, k, f)
    {
      var s := x.stas[a];
      if WellFormed(f) && s.rsn {
        Group1Kdes(crypto, x, a, f);
      }
      y := x;
      if s.ptk == None {
        return;
      }
      var ok := CheckMic(s.ptk.value.kck, f);
      if !ok || (s.rsn && !Encrypted(f)) {
        return;
      }
      var d := crypto.decrypt(s.ptk.value.kek, Version(f), f);
      if d == None {
        return;
      }
      if s.rsn {
        y := LearnKdeKeys(x, d.value, f);
      } else {
        var klen := if x.groupTkip then 32 else 16;
        if |d.value| == klen {
          y := x.(gtk := x.gtk[WpaKeyIndex(f) := GroupKey(d.value, PnOf(KeyRsc(f)))]);
        }
      }
    }

    method Dispatch(m: Message, x: Bss, b: Addr, a: Addr, f: Octets) returns (y: Bss)
      requires a in x.stas && WellFormed(f)
      ensures y == OnMessage(crypto, m, pmks, x, b, a, f)
    {
      y := x;
      match m
      case Pairwise1 => y := x.(stas := x.stas[a := x.stas[a].(anonce := Nonce(f))]);
      case Pairwise2 => y := RxPairwise2(x, b, a, f);
      case Pairwise3 => y := RxPairwise3(x, b, a, f);
      case Group1 => y := RxGroup1(x, a, f);
      case _ =>
    }

    method ReceiveFrame(src: Addr, dst: Addr, f: Octets)
      modifies this
      ensures Known() == Step(crypto, old(Known()), Eapol(src, dst, f))
    {
      var m := MessageOf(f);
      if m == Ignored {
        return;
      }
      var b, a := if FromAp(m) then src else dst, if FromAp(m) then dst else src;
      if IsGroup(b) {
        return;
      }
      var x := if b in bsss then bsss[b] else NewBss();
      if !IsGroup(a) {
        x := WithSta(x, a);
        x := Dispatch(m, x, b, a, f);
      }
      bsss := bsss[b := x];
    }

    /** After any events, the frame leaves every key with its origin. */
    method ReceiveProven(src: Addr, dst: Addr, f: Octets, ghost es: seq<Event>)
      requires Known() == Run(crypto, es)
      modifies this
      ensures Known() == Run(crypto, es + [Eapol(src, dst, f)])
      ensures Inv(crypto, es + [Eapol(src, dst, f)], Known())
    {
      ghost var all := es + [Eapol(src, dst, f)];
      assert all[..|es|] == es;
      ReceiveFrame(src, dst, f);
      KeysAreProven(crypto, all);
    }
  }
}
