/** Where every key comes from that a run of captured frames has left in the tables. */
module RxEapolRuns {
  import opened Octets
  import opened Ieee80211
  import opened Wrappers
  import opened RxEapol
  import opened PacketNumber

  /** The event is a message of a handshake between access point b and station a. */
  predicate Between(e: Event, b: Addr, a: Addr, ms: set<Message>) {
    && e.Eapol? && MessageOf(e.frame) in ms && MessageOf(e.frame) != Ignored
    && ApOf(e) == b && StaOf(e) == a && !IsGroup(b) && !IsGroup(a)
  }

  ghost predicate IsMessage(es: seq<Event>, k: nat, b: Addr, a: Addr, ms: set<Message>) {
    k < |es| && Between(es[k], b, a, ms)
  }

  /** The nonce of the last such message, or zeros if there was none. */
  function Recorded(es: seq<Event>, b: Addr, a: Addr, ms: set<Message>): Octets {
    if es == [] then NO_NONCE
    else if Between(es[|es| - 1], b, a, ms) then Nonce(es[|es| - 1].frame)
    else Recorded(es[..|es| - 1], b, a, ms)
  }

  datatype PtkOrigin = PtkOrigin(k: nat, input: PrfInput)

  const DERIVING := {Pairwise2, Pairwise3}
  const ANONCES := {Pairwise1, Pairwise3}
  const SNONCES := {Pairwise2}
  const CARRYING := {Pairwise3, Group1}

  /**
   The key is computed from a listed PMK and the nonces recorded when event o.k came: the ANonce of the last
   message 1/4 or 3/4 and the SNonce of the last message 2/4, that event included; and it confirmed that frame.
   */
  ghost predicate PtkExplained(c: Crypto, es: seq<Event>, pmks: seq<Octets>, b: Addr, a: Addr, ptk: Ptk, o: PtkOrigin) {
    && ptk == c.prf(o.input) && o.input.pmk in pmks && o.input.bssid == b && o.input.addr == a
    && IsMessage(es, o.k, b, a, DERIVING) && MicVerifies(c, ptk.kck, es[o.k].frame)
    && o.input.anonce == Recorded(es[..o.k + 1], b, a, ANONCES)
    && o.input.snonce == Recorded(es[..o.k + 1], b, a, SNONCES)
  }

  ghost predicate PtkProven(c: Crypto, es: seq<Event>, pmks: seq<Octets>, b: Addr, a: Addr, ptk: Ptk) {
    exists o :: PtkExplained(c, es, pmks, b, a, ptk, o)
  }

  datatype KeyOrigin = KeyOrigin(k: nat, a: Addr, ptk: Ptk, data: Octets)

  /** The Key Data of a frame whose MIC verified under a proven pairwise key. */
  ghost predicate DataProven(c: Crypto, es: seq<Event>, pmks: seq<Octets>, b: Addr, o: KeyOrigin) {
    && IsMessage(es, o.k, b, o.a, CARRYING) && MicVerifies(c, o.ptk.kck, es[o.k].frame)
    && PtkProven(c, es, pmks, b, o.a, o.ptk)
    && Some(o.data) == (if MessageOf(es[o.k].frame) == Pairwise3 then ClearData(c, o.ptk, es[o.k].frame)
                        else c.decrypt(o.ptk.kek, Version(es[o.k].frame), es[o.k].frame))
  }

  /** The key and counter that a GTK KDE gives, or a WPA group message, whose whole Key Data is the key. */
  predicate GtkIn(c: Crypto, data: Octets, f: Octets, id: nat, g: GroupKey)
    requires MessageOf(f) != Ignored
  {
    var k := c.parse(data);
    && g.pn == PnOf(KeyRsc(f))
    && (|| (k.Some? && k.value.gtk.Some? && GtkFits(k.value.gtk.value)
            && id == GtkId(k.value.gtk.value) && g.key == k.value.gtk.value[2..])
        || (MessageOf(f) == Group1 && id == WpaKeyIndex(f) && g.key == data))
  }

  predicate IgtkIn(c: Crypto, data: Octets, id: nat, g: GroupKey) {
    var k := c.parse(data);
    && k.Some? && k.value.igtk.Some? && IgtkFits(k.value.igtk.value) && id == IgtkId(k.value.igtk.value)
    && g == GroupKey(k.value.igtk.value[8..], PnOf(k.value.igtk.value[2..8]))
  }

  ghost predicate GtkProven(c: Crypto, es: seq<Event>, pmks: seq<Octets>, b: Addr, id: nat, g: GroupKey) {
    exists o :: DataProven(c, es, pmks, b, o) && GtkIn(c, o.data, es[o.k].frame, id, g)
  }

  ghost predicate IgtkProven(c: Crypto, es: seq<Event>, pmks: seq<Octets>, b: Addr, id: nat, g: GroupKey) {
    exists o :: DataProven(c, es, pmks, b, o) && IgtkIn(c, o.data, id, g)
  }

  ghost predicate StaProven(c: Crypto, es: seq<Event>, pmks: seq<Octets>, b: Addr, a: Addr, s: Sta) {
    s.ptk.Some? ==> PtkProven(c, es, pmks, b, a, s.ptk.value)
  }

  ghost predicate BssProven(c: Crypto, es: seq<Event>, pmks: seq<Octets>, b: Addr, x: Bss) {
    && (forall a :: a in x.stas ==> StaProven(c, es, pmks, b, a, x.stas[a]))
    && (forall id :: id in x.gtk ==> GtkProven(c, es, pmks, b, id, x.gtk[id]))
    && forall id :: id in x.igtk ==> IgtkProven(c, es, pmks, b, id, x.igtk[id])
  }

  ghost predicate Inv(c: Crypto, es: seq<Event>, w: World) {
    forall b :: b in w.bsss ==> BssProven(c, es, w.bsss[b].pmks + w.pmks, b, w.bsss[b])
  }

  // ---- What was proven stays proven

  ghost predicate Grows(es: seq<Event>, pmks: seq<Octets>, es': seq<Event>, pmks': seq<Octets>) {
    es <= es' && forall p :: p in pmks ==> p in pmks'
  }

  lemma PtkStays(c: Crypto, es: seq<Event>, pmks: seq<Octets>, es': seq<Event>, pmks': seq<Octets>,
      b: Addr, a: Addr, ptk: Ptk)
    requires Grows(es, pmks, es', pmks') && PtkProven(c, es, pmks, b, a, ptk)
    ensures PtkProven(c, es', pmks', b, a, ptk)
  {
    var o :| PtkExplained(c, es, pmks, b, a, ptk, o);
    assert es'[..o.k + 1] == es[..o.k + 1];
    assert PtkExplained(c, es', pmks', b, a, ptk, o);
  }

  lemma DataStays(c: Crypto, es: seq<Event>, pmks: seq<Octets>, es': seq<Event>, pmks': seq<Octets>, b: Addr, o: KeyOrigin)
    requires Grows(es, pmks, es', pmks') && DataProven(c, es, pmks, b, o)
    ensures DataProven(c, es', pmks', b, o) && es'[o.k] == es[o.k]
  {
    PtkStays(c, es, pmks, es', pmks', b, o.a, o.ptk);
  }

  lemma BssStays(c: Crypto, es: seq<Event>, pmks: seq<Octets>, es': seq<Event>, pmks': seq<Octets>, b: Addr, x: Bss)
    requires Grows(es, pmks, es', pmks') && BssProven(c, es, pmks, b, x)
    ensures BssProven(c, es', pmks', b, x)
  {
    forall a | a in x.stas ensures StaProven(c, es', pmks', b, a, x.stas[a]) {
      StaStays(c, es, pmks, es', pmks', b, a, x.stas[a]);
    }
    forall id | id in x.gtk ensures GtkProven(c, es', pmks', b, id, x.gtk[id]) {
      var o :| DataProven(c, es, pmks, b, o) && GtkIn(c, o.data, es[o.k].frame, id, x.gtk[id]);
      DataStays(c, es, pmks, es', pmks', b, o);
    }
    forall id | id in x.igtk ensures IgtkProven(c, es', pmks', b, id, x.igtk[id]) {
      var o :| DataProven(c, es, pmks, b, o) && IgtkIn(c, o.data, id, x.igtk[id]);
      DataStays(c, es, pmks, es', pmks', b, o);
    }
  }

  lemma StaStays(c: Crypto, es: seq<Event>, pmks: seq<Octets>, es': seq<Event>, pmks': seq<Octets>, b: Addr, a: Addr, s: Sta)
    requires Grows(es, pmks, es', pmks') && StaProven(c, es, pmks, b, a, s)
    ensures StaProven(c, es', pmks', b, a, s)
  {
    if s.ptk.Some? {
      PtkStays(c, es, pmks, es', pmks', b, a, s.ptk.value);
    }
  }

  // ---- The nonces

  /** The station holds the nonces of the last messages that carried them. */
  ghost predicate NoncesAre(es: seq<Event>, b: Addr, a: Addr, s: Sta) {
    s.anonce == Recorded(es, b, a, ANONCES) && s.snonce == Recorded(es, b, a, SNONCES)
  }

  function StaAt(w: World, b: Addr, a: Addr): Sta {
    if b in w.bsss && a in w.bsss[b].stas then w.bsss[b].stas[a] else NewSta()
  }

  lemma {:induction false} DeriveKeepsNonces(c: Crypto, pmks: seq<Octets>, b: Addr, a: Addr, s: Sta, f: Octets)
    requires |f| >= FIXED_LEN
    ensures var r := Derive(c, pmks, b, a, s, f); r.anonce == s.anonce && r.snonce == s.snonce
  {
    if pmks != [] {
      DeriveKeepsNonces(c, pmks[1..], b, a, s, f);
    }
  }

  lemma LearnKeepsStas(c: Crypto, x: Bss, d: Octets, f: Octets)
    requires |f| >= FIXED_LEN
    ensures LearnKdes(c, x, d, f).stas == x.stas
  {
  }

  /** A message changes one station only. */
  lemma MessageStas(c: Crypto, m: Message, pmks: seq<Octets>, x: Bss, b: Addr, a: Addr, f: Octets)
    requires a in x.stas && WellFormed(f)
    ensures var y := OnMessage(c, m, pmks, x, b, a, f); a in y.stas && y.stas == x.stas[a := y.stas[a]]
  {
    forall x: Bss, d ensures LearnKdes(c, x, d, f).stas == x.stas {
      LearnKeepsStas(c, x, d, f);
    }
  }

  /** Of the nonces of that station it changes only the one that it carries. */
  lemma MessageNonces(c: Crypto, m: Message, pmks: seq<Octets>, x: Bss, b: Addr, a: Addr, f: Octets)
    requires a in x.stas && WellFormed(f) && a in OnMessage(c, m, pmks, x, b, a, f).stas
    ensures var s, r := x.stas[a], OnMessage(c, m, pmks, x, b, a, f).stas[a];
      && r.anonce == (if m in ANONCES then Nonce(f) else s.anonce)
      && r.snonce == (if m in SNONCES then Nonce(f) else s.snonce)
  {
    forall x: Bss, d ensures LearnKdes(c, x, d, f).stas == x.stas {
      LearnKeepsStas(c, x, d, f);
    }
    match m
    case Pairwise2 => DeriveKeepsNonces(c, x.pmks + pmks, b, a, x.stas[a].(snonce := Nonce(f)), f);
    case Pairwise3 => DeriveKeepsNonces(c, x.pmks + pmks, b, a, x.stas[a].(anonce := Nonce(f)), f);
    case _ =>
  }

  /** The station after a message, in the terms of the message kind. */
  lemma HandledNonces(c: Crypto, w: World, m: Message, f: Octets, b: Addr, a: Addr, a': Addr)
    requires WellFormed(f)
    ensures var y := OnMessage(c, m, w.pmks, WithSta(GetBss(w, b), a), b, a, f);
      var s, r := StaAt(w, b, a'), StaAt(SetBss(w, b, y), b, a');
      && r.anonce == (if a' == a && m in ANONCES then Nonce(f) else s.anonce)
      && r.snonce == (if a' == a && m in SNONCES then Nonce(f) else s.snonce)
  {
    var x := WithSta(GetBss(w, b), a);
    MessageStas(c, m, w.pmks, x, b, a, f);
    MessageNonces(c, m, w.pmks, x, b, a, f);
    StaAtChanged(w, b, a, OnMessage(c, m, w.pmks, x, b, a, f), a');
  }

  lemma StaAtChanged(w: World, b: Addr, a: Addr, y: Bss, a': Addr)
    requires a in y.stas && y.stas == WithSta(GetBss(w, b), a).stas[a := y.stas[a]]
    ensures StaAt(SetBss(w, b, y), b, a') == if a' == a then y.stas[a] else StaAt(w, b, a')
    ensures StaAt(w, b, a) == WithSta(GetBss(w, b), a).stas[a]
  {
  }

  lemma ReceiveNonces(c: Crypto, w: World, e: Event, b: Addr, a: Addr)
    requires e.Eapol?
    ensures var s, r := StaAt(w, b, a), StaAt(Receive(c, w, e), b, a);
      && r.anonce == (if Between(e, b, a, ANONCES) then Nonce(e.frame) else s.anonce)
      && r.snonce == (if Between(e, b, a, SNONCES) then Nonce(e.frame) else s.snonce)
  {
    var m := MessageOf(e.frame);
    if m != Ignored && b == ApOf(e) && !IsGroup(b) && !IsGroup(StaOf(e)) {
      HandledNonces(c, w, m, e.frame, b, StaOf(e), a);
    }
  }

  lemma StepNonces(c: Crypto, w: World, e: Event, b: Addr, a: Addr)
    ensures var s, r := StaAt(w, b, a), StaAt(Step(c, w, e), b, a);
      && r.anonce == (if Between(e, b, a, ANONCES) then Nonce(e.frame) else s.anonce)
      && r.snonce == (if Between(e, b, a, SNONCES) then Nonce(e.frame) else s.snonce)
  {
    if e.Eapol? {
      ReceiveNonces(c, w, e, b, a);
    }
  }

  /** After any run every station holds the nonces of the last messages that carried them, or none. */
  lemma {:induction false} NoncesAreRecorded(c: Crypto, es: seq<Event>, b: Addr, a: Addr)
    ensures NoncesAre(es, b, a, StaAt(Run(c, es), b, a))
  {
    if es != [] {
      NoncesAreRecorded(c, es[..|es| - 1], b, a);
      StepNonces(c, Run(c, es[..|es| - 1]), es[|es| - 1], b, a);
    }
  }

  // ---- Each message

  /** The last event is the message that is being handled. */
  ghost predicate Handling(es: seq<Event>, b: Addr, a: Addr, f: Octets, ms: set<Message>) {
    es != [] && IsMessage(es, |es| - 1, b, a, ms) && es[|es| - 1].frame == f
  }

  lemma {:induction false} DeriveProven(c: Crypto, es: seq<Event>, pmks: seq<Octets>, all: seq<Octets>,
      b: Addr, a: Addr, s: Sta, f: Octets)
    requires Handling(es, b, a, f, DERIVING) && StaProven(c, es, all, b, a, s) && NoncesAre(es, b, a, s)
    requires forall p :: p in pmks ==> p in all
    ensures StaProven(c, es, all, b, a, Derive(c, pmks, b, a, s, f))
  {
    if pmks != [] {
      var ptk := PtkFrom(c, pmks[0], b, a, s);
      if MicVerifies(c, ptk.kck, f) {
        var o := PtkOrigin(|es| - 1, PrfInput(pmks[0], b, a, s.anonce, s.snonce, s.tkip, s.sha256));
        assert es[..o.k + 1] == es;
        assert PtkExplained(c, es, all, b, a, ptk, o);
      } else {
        DeriveProven(c, es, pmks[1..], all, b, a, s, f);
      }
    }
  }

  lemma StaReplaced(c: Crypto, es: seq<Event>, pmks: seq<Octets>, b: Addr, x: Bss, a: Addr, s: Sta)
    requires BssProven(c, es, pmks, b, x) && StaProven(c, es, pmks, b, a, s)
    ensures BssProven(c, es, pmks, b, x.(stas := x.stas[a := s]))
  {
  }

  lemma GtkReplaced(c: Crypto, es: seq<Event>, pmks: seq<Octets>, b: Addr, x: Bss, id: nat, g: GroupKey, idx: nat)
    requires BssProven(c, es, pmks, b, x) && GtkProven(c, es, pmks, b, id, g)
    ensures BssProven(c, es, pmks, b, x.(gtk := x.gtk[id := g], gtkIdx := idx))
  {
  }

  lemma IgtkReplaced(c: Crypto, es: seq<Event>, pmks: seq<Octets>, b: Addr, x: Bss, id: nat, g: GroupKey, idx: nat)
    requires BssProven(c, es, pmks, b, x) && IgtkProven(c, es, pmks, b, id, g)
    ensures BssProven(c, es, pmks, b, x.(igtk := x.igtk[id := g], igtkIdx := idx))
  {
  }

  lemma LearnGtkProven(c: Crypto, es: seq<Event>, pmks: seq<Octets>, b: Addr, x: Bss, o: KeyOrigin)
    requires BssProven(c, es, pmks, b, x) && DataProven(c, es, pmks, b, o) && c.parse(o.data).Some?
    ensures BssProven(c, es, pmks, b, LearnGtk(x, c.parse(o.data).value.gtk, es[o.k].frame))
  {
    var gtk, f := c.parse(o.data).value.gtk, es[o.k].frame;
    if gtk.Some? && GtkFits(gtk.value) {
      var id, g := GtkId(gtk.value), GroupKey(gtk.value[2..], PnOf(KeyRsc(f)));
      assert GtkIn(c, o.data, f, id, g);
      GtkReplaced(c, es, pmks, b, x, id, g, id);
    }
  }

  lemma LearnIgtkProven(c: Crypto, es: seq<Event>, pmks: seq<Octets>, b: Addr, x: Bss, o: KeyOrigin)
    requires BssProven(c, es, pmks, b, x) && DataProven(c, es, pmks, b, o) && c.parse(o.data).Some?
    ensures BssProven(c, es, pmks, b, LearnIgtk(x, c.parse(o.data).value.igtk))
  {
    var igtk := c.parse(o.data).value.igtk;
    if igtk.Some? && IgtkFits(igtk.value) {
      var id, g := IgtkId(igtk.value), GroupKey(igtk.value[8..], PnOf(igtk.value[2..8]));
      assert IgtkIn(c, o.data, id, g);
      IgtkReplaced(c, es, pmks, b, x, id, g, id);
    }
  }

  lemma LearnProven(c: Crypto, es: seq<Event>, pmks: seq<Octets>, b: Addr, x: Bss, o: KeyOrigin)
    requires BssProven(c, es, pmks, b, x) && DataProven(c, es, pmks, b, o)
    ensures BssProven(c, es, pmks, b, LearnKdes(c, x, o.data, es[o.k].frame))
  {
    if c.parse(o.data).Some? {
      LearnGtkProven(c, es, pmks, b, x, o);
      LearnIgtkProven(c, es, pmks, b, LearnGtk(x, c.parse(o.data).value.gtk, es[o.k].frame), o);
    }
  }

  lemma Pairwise1Proven(c: Crypto, es: seq<Event>, pmks: seq<Octets>, b: Addr, x: Bss, a: Addr, f: Octets)
    requires BssProven(c, es, pmks, b, x) && a in x.stas && Handling(es, b, a, f, {Pairwise1})
    ensures BssProven(c, es, pmks, b, OnPairwise1(x, a, f))
  {
    StaReplaced(c, es, pmks, b, x, a, x.stas[a].(anonce := Nonce(f)));
  }

  lemma Pairwise2Proven(c: Crypto, es: seq<Event>, pmks: seq<Octets>, b: Addr, x: Bss, a: Addr, f: Octets)
    requires BssProven(c, es, x.pmks + pmks, b, x) && a in x.stas && Handling(es, b, a, f, {Pairwise2})
    requires NoncesAre(es[..|es| - 1], b, a, x.stas[a])
    ensures BssProven(c, es, x.pmks + pmks, b, OnPairwise2(c, pmks, x, b, a, f))
  {
    assert Handling(es, b, a, f, DERIVING);
    var s := x.stas[a].(snonce := Nonce(f));
    DeriveProven(c, es, x.pmks + pmks, x.pmks + pmks, b, a, s, f);
    StaReplaced(c, es, x.pmks + pmks, b, x, a, Derive(c, x.pmks + pmks, b, a, s, f));
  }

  lemma RederivedProven(c: Crypto, es: seq<Event>, pmks: seq<Octets>, b: Addr, a: Addr, s: Sta, f: Octets)
    requires StaProven(c, es, pmks, b, a, s) && Handling(es, b, a, f, {Pairwise3}) && NoncesAre(es[..|es| - 1], b, a, s)
    ensures StaProven(c, es, pmks, b, a, Rederived(c, pmks, b, a, s, f))
  {
    assert Handling(es, b, a, f, DERIVING);
    DeriveProven(c, es, pmks, pmks, b, a, s.(anonce := Nonce(f)), f);
  }

  lemma Pairwise3Proven(c: Crypto, es: seq<Event>, pmks: seq<Octets>, b: Addr, x: Bss, a: Addr, f: Octets)
    requires BssProven(c, es, x.pmks + pmks, b, x) && a in x.stas && Handling(es, b, a, f, {Pairwise3})
    requires NoncesAre(es[..|es| - 1], b, a, x.stas[a])
    ensures BssProven(c, es, x.pmks + pmks, b, OnPairwise3(c, pmks, x, b, a, f))
  {
    var all := x.pmks + pmks;
    var s := Rederived(c, all, b, a, x.stas[a], f);
    var y := x.(stas := x.stas[a := s]);
    RederivedProven(c, es, all, b, a, x.stas[a], f);
    StaReplaced(c, es, all, b, x, a, s);
    if s.ptk.Some? && MicVerifies(c, s.ptk.value.kck, f) && ClearData(c, s.ptk.value, f).Some? {
      var o := KeyOrigin(|es| - 1, a, s.ptk.value, ClearData(c, s.ptk.value, f).value);
      assert IsMessage(es, o.k, b, a, CARRYING);
      LearnProven(c, es, all, b, y, o);
    }
  }

  lemma Group1Data(c: Crypto, es: seq<Event>, pmks: seq<Octets>, b: Addr, a: Addr, s: Sta, f: Octets, d: Octets)
    requires StaProven(c, es, pmks, b, a, s) && Handling(es, b, a, f, {Group1}) && s.ptk.Some?
    requires MicVerifies(c, s.ptk.value.kck, f) && c.decrypt(s.ptk.value.kek, Version(f), f) == Some(d)
    ensures DataProven(c, es, pmks, b, KeyOrigin(|es| - 1, a, s.ptk.value, d))
    ensures GtkProven(c, es, pmks, b, WpaKeyIndex(f), GroupKey(d, PnOf(KeyRsc(f))))
  {
    var o := KeyOrigin(|es| - 1, a, s.ptk.value, d);
    assert IsMessage(es, o.k, b, a, CARRYING);
    assert DataProven(c, es, pmks, b, o);
    assert GtkIn(c, o.data, es[o.k].frame, WpaKeyIndex(f), GroupKey(d, PnOf(KeyRsc(f))));
  }

  lemma GroupStored(c: Crypto, es: seq<Event>, pmks: seq<Octets>, b: Addr, x: Bss, o: KeyOrigin, rsn: bool)
    requires BssProven(c, es, pmks, b, x) && DataProven(c, es, pmks, b, o)
    requires var f := es[o.k].frame; GtkProven(c, es, pmks, b, WpaKeyIndex(f), GroupKey(o.data, PnOf(KeyRsc(f))))
    ensures BssProven(c, es, pmks, b, LearnGroup(c, rsn, x, o.data, es[o.k].frame))
  {
    if rsn {
      LearnProven(c, es, pmks, b, x, o);
    } else {
      LearnBareProven(c, es, pmks, b, x, o.data, es[o.k].frame);
    }
  }

  lemma LearnBareProven(c: Crypto, es: seq<Event>, pmks: seq<Octets>, b: Addr, x: Bss, d: Octets, f: Octets)
    requires BssProven(c, es, pmks, b, x) && |f| >= FIXED_LEN
    requires GtkProven(c, es, pmks, b, WpaKeyIndex(f), GroupKey(d, PnOf(KeyRsc(f))))
    ensures BssProven(c, es, pmks, b, LearnBare(x, d, f))
  {
    GtkReplaced(c, es, pmks, b, x, WpaKeyIndex(f), GroupKey(d, PnOf(KeyRsc(f))), x.gtkIdx);
  }

  lemma LearnGroupProven(c: Crypto, es: seq<Event>, pmks: seq<Octets>, b: Addr, x: Bss, a: Addr, s: Sta,
      f: Octets, d: Octets)
    requires BssProven(c, es, pmks, b, x)
    requires StaProven(c, es, pmks, b, a, s) && Handling(es, b, a, f, {Group1}) && s.ptk.Some?
    requires MicVerifies(c, s.ptk.value.kck, f) && c.decrypt(s.ptk.value.kek, Version(f), f) == Some(d)
    ensures BssProven(c, es, pmks, b, LearnGroup(c, s.rsn, x, d, f))
  {
    Group1Data(c, es, pmks, b, a, s, f, d);
    GroupStored(c, es, pmks, b, x, KeyOrigin(|es| - 1, a, s.ptk.value, d), s.rsn);
  }

  lemma Group1Proven(c: Crypto, es: seq<Event>, pmks: seq<Octets>, b: Addr, x: Bss, a: Addr, f: Octets)
    requires BssProven(c, es, pmks, b, x) && a in x.stas && Handling(es, b, a, f, {Group1})
    ensures BssProven(c, es, pmks, b, OnGroup1(c, x, a, f))
  {
    var s := x.stas[a];
    if s.ptk.Some? && MicVerifies(c, s.ptk.value.kck, f) {
      match c.decrypt(s.ptk.value.kek, Version(f), f)
      case None =>
      case Some(d) => LearnGroupProven(c, es, pmks, b, x, a, s, f, d);
    }
  }

  lemma MessageProven(c: Crypto, es: seq<Event>, m: Message, pmks: seq<Octets>, b: Addr, x: Bss, a: Addr, f: Octets)
    requires BssProven(c, es, x.pmks + pmks, b, x) && a in x.stas && Handling(es, b, a, f, {m}) && WellFormed(f)
    requires NoncesAre(es[..|es| - 1], b, a, x.stas[a])
    ensures BssProven(c, es, x.pmks + pmks, b, OnMessage(c, m, pmks, x, b, a, f))
  {
    match m
    case Pairwise1 => Pairwise1Proven(c, es, x.pmks + pmks, b, x, a, f);
    case Pairwise2 => Pairwise2Proven(c, es, pmks, b, x, a, f);
    case Pairwise3 => Pairwise3Proven(c, es, pmks, b, x, a, f);
    case Group1 => Group1Proven(c, es, x.pmks + pmks, b, x, a, f);
    case _ =>
  }

  // ---- Runs

  lemma MessageKeepsPmks(c: Crypto, m: Message, pmks: seq<Octets>, x: Bss, b: Addr, a: Addr, f: Octets)
    requires a in x.stas && WellFormed(f)
    ensures OnMessage(c, m, pmks, x, b, a, f).pmks == x.pmks
  {
  }

  /** The BSS that a message or an association is about, with the station in it. */
  lemma WithStaProven(c: Crypto, es: seq<Event>, w: World, b: Addr, a: Addr)
    requires Inv(c, es, w)
    ensures var x := WithSta(GetBss(w, b), a); BssProven(c, es, x.pmks + w.pmks, b, x)
  {
  }

  lemma ReceiveKeeps(c: Crypto, es: seq<Event>, w: World, e: Event)
    requires Inv(c, es, w) && e.Eapol? && NoncesAre(es, ApOf(e), StaOf(e), StaAt(w, ApOf(e), StaOf(e)))
    ensures Inv(c, es + [e], Receive(c, w, e))
  {
    var b, a := ApOf(e), StaOf(e);
    OthersKeep(c, es, w, e, Receive(c, w, e), b);
    if MessageOf(e.frame) != Ignored && !IsGroup(b) {
      if IsGroup(a) {
        BssStays(c, es, GetBss(w, b).pmks + w.pmks, es + [e], GetBss(w, b).pmks + w.pmks, b, GetBss(w, b));
      } else {
        HandledKeeps(c, es, w, e, b, a, MessageOf(e.frame));
      }
    }
  }

  lemma HandledKeeps(c: Crypto, es: seq<Event>, w: World, e: Event, b: Addr, a: Addr, m: Message)
    requires Inv(c, es, w) && e.Eapol? && m == MessageOf(e.frame) && m != Ignored && b == ApOf(e) && a == StaOf(e)
    requires !IsGroup(b) && !IsGroup(a) && NoncesAre(es, b, a, StaAt(w, b, a))
    ensures var y := OnMessage(c, m, w.pmks, WithSta(GetBss(w, b), a), b, a, e.frame);
      BssProven(c, es + [e], y.pmks + w.pmks, b, y)
  {
    var x, es' := WithSta(GetBss(w, b), a), es + [e];
    WithStaProven(c, es, w, b, a);
    BssStays(c, es, x.pmks + w.pmks, es', x.pmks + w.pmks, b, x);
    assert Handling(es', b, a, e.frame, {m}) && es'[..|es'| - 1] == es;
    MessageProven(c, es', m, w.pmks, b, x, a, e.frame);
    MessageKeepsPmks(c, m, w.pmks, x, b, a, e.frame);
  }

  /** An event about one BSS changes no other, and adds at most to the PMKs. */
  lemma OthersKeep(c: Crypto, es: seq<Event>, w: World, e: Event, w': World, b: Addr)
    requires Inv(c, es, w) && (forall p :: p in w.pmks ==> p in w'.pmks)
    requires forall d :: d in w'.bsss && (d != b || w'.bsss == w.bsss) ==> d in w.bsss && w'.bsss[d] == w.bsss[d]
    ensures forall d :: d in w'.bsss && (d != b || w'.bsss == w.bsss) ==>
      BssProven(c, es + [e], w'.bsss[d].pmks + w'.pmks, d, w'.bsss[d])
  {
    forall d | d in w'.bsss && (d != b || w'.bsss == w.bsss)
      ensures BssProven(c, es + [e], w'.bsss[d].pmks + w'.pmks, d, w'.bsss[d])
    {
      var x := w.bsss[d];
      BssStays(c, es, x.pmks + w.pmks, es + [e], x.pmks + w'.pmks, d, x);
    }
  }

  lemma ConfigureKeeps(c: Crypto, es: seq<Event>, w: World, e: Event)
    requires Inv(c, es, w) && e.Configure?
    ensures Inv(c, es + [e], Step(c, w, e))
  {
    var b, a := e.bssid, e.addr;
    var x := WithSta(GetBss(w, b), a);
    WithStaProven(c, es, w, b, a);
    BssStays(c, es, x.pmks + w.pmks, es + [e], x.pmks + w.pmks, b, x);
    var s := x.stas[a].(tkip := e.tkip, sha256 := e.sha256, rsn := e.rsn);
    assert StaProven(c, es + [e], x.pmks + w.pmks, b, a, x.stas[a]);
    StaReplaced(c, es + [e], x.pmks + w.pmks, b, x, a, s);
    OthersKeep(c, es, w, e, Step(c, w, e), b);
  }

  lemma AddPmkKeeps(c: Crypto, es: seq<Event>, w: World, e: Event)
    requires Inv(c, es, w) && (e.AddPmk? || e.AddBssPmk?)
    ensures Inv(c, es + [e], Step(c, w, e))
  {
    var w' := Step(c, w, e);
    if e.AddPmk? {
      OthersKeep(c, es, w, e, w', []);
    } else {
      var x := GetBss(w, e.bssid);
      var y := x.(pmks := [e.pmk] + x.pmks);
      BssStays(c, es, x.pmks + w.pmks, es + [e], y.pmks + w.pmks, e.bssid, x);
      OthersKeep(c, es, w, e, w', e.bssid);
    }
  }

  /**
   In every reachable state, each pairwise key was computed from a listed PMK and the nonces recorded when it
   confirmed a received frame, and each group key with its counter came in a frame confirmed by such a key.
   */
  lemma {:induction false} KeysAreProven(c: Crypto, es: seq<Event>)
    ensures Inv(c, es, Run(c, es))
  {
    if es != [] {
      var init, e := es[..|es| - 1], es[|es| - 1];
      var w := Run(c, init);
      assert es == init + [e];
      KeysAreProven(c, init);
      match e
      case Eapol(_, _, _) =>
        NoncesAreRecorded(c, init, ApOf(e), StaOf(e));
        ReceiveKeeps(c, init, w, e);
      case Configure(_, _, _, _, _, _) => ConfigureKeeps(c, init, w, e);
      case AddPmk(_) => AddPmkKeeps(c, init, w, e);
      case AddBssPmk(_, _) => AddPmkKeeps(c, init, w, e);
    }
  }

  // ---- What a frame stores besides

  /** A frame stores keys only under the ids that it names. */
  lemma LearnKeepsOthers(c: Crypto, x: Bss, d: Octets, f: Octets, id: nat)
    requires |f| >= FIXED_LEN && c.parse(d).Some?
    ensures var gtk, y := c.parse(d).value.gtk, LearnKdes(c, x, d, f);
      !(gtk.Some? && GtkFits(gtk.value) && GtkId(gtk.value) == id) ==>
        (id in y.gtk <==> id in x.gtk) && (id in x.gtk ==> y.gtk[id] == x.gtk[id])
    ensures var igtk, y := c.parse(d).value.igtk, LearnKdes(c, x, d, f);
      !(igtk.Some? && IgtkFits(igtk.value) && IgtkId(igtk.value) == id) ==>
        (id in y.igtk <==> id in x.igtk) && (id in x.igtk ==> y.igtk[id] == x.igtk[id])
  {
  }

  function FromLittleEndian(s: Octets): nat {
    if s == [] then 0 else s[0] as nat + 256 * FromLittleEndian(s[1..])
  }

  /** The stored packet number is the received counter: its first six octets, least significant first. */
  lemma PnIsCounter(rsc: Octets)
    requires |rsc| >= 6
    ensures FromBigEndian(PnOf(rsc)) == FromLittleEndian(rsc[..6])
  {
    var r, p := rsc[..6], PnOf(rsc);
    BackwardsAt(r);
    assert p == Backwards(r);
    BackwardsValue(r);
  }

  function Backwards(s: Octets): Octets {
    if s == [] then [] else Backwards(s[1..]) + [s[0]]
  }

  lemma {:induction false} BackwardsAt(s: Octets)
    ensures |Backwards(s)| == |s| && forall k :: 0 <= k < |s| ==> Backwards(s)[k] == s[|s| - 1 - k]
  {
    if s != [] {
      BackwardsAt(s[1..]);
    }
  }

  lemma {:induction false} BackwardsValue(s: Octets)
    ensures FromBigEndian(Backwards(s)) == FromLittleEndian(s)
  {
    if s != [] {
      BackwardsValue(s[1..]);
      var t := Backwards(s);
      assert t[..|t| - 1] == Backwards(s[1..]);
    }
  }
}
