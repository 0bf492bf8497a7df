/**
 Key and packet number of an injected protected frame (hostap08/wlantest/inject.c).  A packet number that
 has not been used yet is zero, as its memory is cleared when the station, link or BSS is added.
 */
module Inject {
  import opened Octets
  import opened Ieee80211
  import opened Ccm
  import opened Wrappers
  import opened Ccmp
  import opened CcmpFrames
  import opened PacketNumber

  datatype Sta = Sta(ptkSet: bool, tkip: bool)
  datatype Link = Link(initiator: Octets, responder: Octets)
  datatype Bss = Bss(stas: map<Octets, Sta>, links: seq<Link>, gtkIdx: bv8, gtkKnown: bool, groupTkip: bool)
  type Network = map<Octets, Bss>

  /** A key in memory. */
  datatype Slot = Pairwise(bssid: Octets, sta: Octets) | Direct(bssid: Octets, link: nat) | Group(bssid: Octets, idx: bv8)

  /** One packet number: a key, one of two directions, and a TID (16 for management frames). */
  datatype Counter = Counter(slot: Slot, forth: bool, tid: bv8)

  type Pn = s: Octets | |s| == 6 witness [0, 0, 0, 0, 0, 0]

  /** A frame for a station of a BSS, or for all of them. */
  datatype Request = Request(bssid: Octets, sta: Option<Octets>, frame: Octets)

  datatype Choice = Nothing | Protect(counter: Counter, hdrlen: nat, ccmp: bool, keyid: bv8)

  predicate Valid(net: Network, r: Request) {
    IsHeader(r.frame) && r.bssid in net && (r.sta.Some? ==> r.sta.value in net[r.bssid].stas)
  }

  // ---- The choice of key and counter

  function Tid(h: Octets): bv8
    requires IsHeader(h)
  {
    var fc := FrameControl(h);
    if Type(fc) == TYPE_MGMT then 16 else if HasQos(fc) then QosOctet(h) & 0x0f else 0
  }

  function UnicastHdrLen(h: Octets): nat
    requires |h| >= 2
  {
    if Type(FrameControl(h)) == TYPE_DATA then HdrLen(FrameControl(h)) else 24
  }

  function GroupHdrLen(h: Octets): nat
    requires |h| >= 2
  {
    if HasAddr4(FrameControl(h)) then 30 else 24
  }

  predicate Connects(l: Link, a: Octets, b: Octets) {
    (l.initiator == a && l.responder == b) || (l.initiator == b && l.responder == a)
  }

  function FindLink(links: seq<Link>, a: Octets, b: Octets): (k: nat)
    ensures k <= |links| && (k < |links| ==> Connects(links[k], a, b))
  {
    if links == [] || Connects(links[0], a, b) then 0 else 1 + FindLink(links[1..], a, b)
  }

  predicate OnDirectLink(h: Octets)
    requires |h| >= 2
  {
    Type(FrameControl(h)) == TYPE_DATA && FrameControl(h) & (FC_TODS | FC_FROMDS) == 0
  }

  function ChoosePairwise(net: Network, bssid: Octets, sta: Octets, h: Octets): Choice
    requires IsHeader(h) && bssid in net && sta in net[bssid].stas
  {
    var s := net[bssid].stas[sta];
    if !s.ptkSet then Nothing
    else Protect(Counter(Pairwise(bssid, sta), Addr2(h) == bssid, Tid(h)), UnicastHdrLen(h), !s.tkip, 0)
  }

  function ChooseDirect(net: Network, h: Octets): Choice
    requires IsHeader(h)
  {
    var bssid := Addr3(h);
    if bssid !in net || Addr2(h) !in net[bssid].stas || Addr1(h) !in net[bssid].stas then Nothing
    else
      var links := net[bssid].links;
      var k := FindLink(links, Addr2(h), Addr1(h));
      if k < |links| then
        Protect(Counter(Direct(bssid, k), Addr2(h) == links[k].initiator, Tid(h)), UnicastHdrLen(h), true, 0)
      else ChoosePairwise(net, bssid, Addr2(h), h)
  }

  function ChooseGroup(net: Network, bssid: Octets, h: Octets): Choice
    requires IsHeader(h) && bssid in net
  {
    var bss := net[bssid];
    if Type(FrameControl(h)) == TYPE_MGMT || !bss.gtkKnown then Nothing
    else Protect(Counter(Group(bssid, bss.gtkIdx), true, 0), GroupHdrLen(h), !bss.groupTkip, bss.gtkIdx)
  }

  function Choose(net: Network, r: Request): Choice
    requires Valid(net, r)
  {
    if OnDirectLink(r.frame) then ChooseDirect(net, r.frame)
    else match r.sta
      case None => ChooseGroup(net, r.bssid, r.frame)
      case Some(sta) => ChoosePairwise(net, r.bssid, sta, r.frame)
  }

  // ---- The choice, from the frame and the network

  lemma DataOctets(x: bv8, y: bv8, fc: bv16)
    requires fc == ((y as bv16) << 8) | x as bv16
    ensures
      && (Type(fc) == TYPE_DATA <==> x & 0x0c == 0x08) && (Type(fc) == TYPE_MGMT <==> x & 0x0c == 0)
      && (fc & (FC_TODS | FC_FROMDS) == 0 <==> y & 3 == 0)
  {
  }

  lemma FrameOctets(h: Octets)
    requires |h| >= 2
    ensures OnDirectLink(h) <==> h[0] & 0x0c == 0x08 && h[1] & 3 == 0
    ensures Type(FrameControl(h)) == TYPE_MGMT <==> h[0] & 0x0c == 0
  {
    assert h[..2][0] == h[0] && h[..2][1] == h[1];
    DataOctets(h[0], h[1], FrameControl(h));
  }

  lemma LengthOctets(x: bv8, y: bv8, fc: bv16)
    requires fc == ((y as bv16) << 8) | x as bv16
    ensures (HasAddr4(fc) <==> y & 3 == 3) && (HasQos(fc) <==> x & 0x8c == 0x88)
  {
  }

  lemma FrameControlIs(h: Octets)
    requires |h| >= 2
    ensures FrameControl(h) == ((h[1] as bv16) << 8) | h[0] as bv16
  {
    assert h[..2][0] == h[0] && h[..2][1] == h[1];
  }

  lemma HeaderFacts(h: Octets, x: bv8, y: bv8, fc: bv16)
    requires |h| >= 2 && fc == FrameControl(h) && x == h[0] && y == h[1]
    ensures Type(fc) == TYPE_DATA <==> x & 0x0c == 0x08
    ensures (HasAddr4(fc) <==> y & 3 == 3) && (HasQos(fc) <==> x & 0x8c == 0x88)
  {
    FrameControlIs(h);
    DataOctets(x, y, fc);
    LengthOctets(x, y, fc);
  }

  lemma LengthsFrom(h: Octets, data: bool, addr4: bool, qos: bool)
    requires |h| >= 2 && var fc := FrameControl(h);
      (Type(fc) == TYPE_DATA <==> data) && (HasAddr4(fc) <==> addr4) && (HasQos(fc) <==> qos)
    ensures GroupHdrLen(h) == if addr4 then 30 else 24
    ensures UnicastHdrLen(h) == 24 + (if data && addr4 then 6 else 0) + (if qos then 2 else 0)
  {
  }

  /** The header of a data frame has a fourth address with both direction bits, and QoS Control with its subtype. */
  lemma HeaderLengths(h: Octets)
    requires |h| >= 2
    ensures GroupHdrLen(h) == if h[1] & 3 == 3 then 30 else 24
    ensures UnicastHdrLen(h) == 24 + (if h[0] & 0x0c == 0x08 && h[1] & 3 == 3 then 6 else 0)
      + (if h[0] & 0x8c == 0x88 then 2 else 0)
  {
    HeaderFacts(h, h[0], h[1], FrameControl(h));
    LengthsFrom(h, h[0] & 0x0c == 0x08, h[1] & 3 == 3, h[0] & 0x8c == 0x88);
  }

  lemma {:induction false} FindLinkIs(links: seq<Link>, a: Octets, b: Octets)
    ensures forall j :: 0 <= j < FindLink(links, a, b) ==> !Connects(links[j], a, b)
  {
    if links != [] && !Connects(links[0], a, b) {
      FindLinkIs(links[1..], a, b);
      forall j | 0 <= j < FindLink(links, a, b) ensures !Connects(links[j], a, b) {
        assert j > 0 ==> links[j] == links[1..][j - 1];
      }
    }
  }

  /** Both addresses of a data frame without a distribution system are stations of the BSS that it names. */
  predicate BetweenStations(net: Network, h: Octets)
    requires |h| >= 24
  {
    && h[0] & 0x0c == 0x08 && h[1] & 3 == 0 && h[16..22] in net
    && h[10..16] in net[h[16..22]].stas && h[4..10] in net[h[16..22]].stas
  }

  /** Link k is the first between the two addresses. */
  ghost predicate FirstLink(links: seq<Link>, k: nat, a: Octets, b: Octets) {
    k < |links| && Connects(links[k], a, b) && forall j :: 0 <= j < k ==> !Connects(links[j], a, b)
  }

  /** A direct link is used exactly for a frame between two stations, and it is the first between them. */
  lemma DirectIff(net: Network, r: Request, k: nat)
    requires Valid(net, r)
    ensures var h := r.frame;
      (Choose(net, r).Protect? && Choose(net, r).counter.slot == Direct(h[16..22], k)) <==>
        BetweenStations(net, h) && FirstLink(net[h[16..22]].links, k, h[10..16], h[4..10])
    ensures var h := r.frame; BetweenStations(net, h) && FirstLink(net[h[16..22]].links, k, h[10..16], h[4..10]) ==>
      Choose(net, r).ccmp && Choose(net, r).counter.forth == (h[10..16] == net[h[16..22]].links[k].initiator)
  {
    var h := r.frame;
    FrameOctets(h);
    if BetweenStations(net, h) {
      FindLinkIs(net[h[16..22]].links, h[10..16], h[4..10]);
    }
  }

  /** Whose key is used: the transmitter's for a frame between stations without a link, else that of the one asked for. */
  ghost predicate ForStation(net: Network, r: Request, bssid: Octets, sta: Octets)
    requires Valid(net, r)
  {
    var h := r.frame;
    if h[0] & 0x0c == 0x08 && h[1] & 3 == 0 then
      && BetweenStations(net, h) && bssid == h[16..22] && sta == h[10..16]
      && forall l :: l in net[bssid].links ==> !Connects(l, h[10..16], h[4..10])
    else r.sta == Some(sta) && bssid == r.bssid
  }

  lemma NoLink(links: seq<Link>, a: Octets, b: Octets)
    ensures FindLink(links, a, b) == |links| <==> forall l :: l in links ==> !Connects(l, a, b)
  {
    FindLinkIs(links, a, b);
    var k := FindLink(links, a, b);
    if k < |links| {
      assert links[k] in links;
    }
  }

  /** The key of a station is used exactly if it is known. */
  lemma PairwiseIff(net: Network, r: Request, bssid: Octets, sta: Octets)
    requires Valid(net, r)
    ensures (Choose(net, r).Protect? && Choose(net, r).counter.slot == Pairwise(bssid, sta)) <==>
      ForStation(net, r, bssid, sta) && net[bssid].stas[sta].ptkSet
    ensures ForStation(net, r, bssid, sta) && net[bssid].stas[sta].ptkSet ==>
      Choose(net, r).ccmp == !net[bssid].stas[sta].tkip && Choose(net, r).counter.forth == (r.frame[10..16] == bssid)
  {
    var h := r.frame;
    FrameOctets(h);
    if BetweenStations(net, h) {
      NoLink(net[h[16..22]].links, h[10..16], h[4..10]);
    }
  }

  /** The group key is used exactly for a frame to no station that is neither direct nor a management frame. */
  lemma GroupIff(net: Network, r: Request, bssid: Octets, idx: bv8)
    requires Valid(net, r)
    ensures (Choose(net, r).Protect? && Choose(net, r).counter.slot == Group(bssid, idx)) <==>
      && r.sta == None && bssid == r.bssid && idx == net[bssid].gtkIdx && net[bssid].gtkKnown
      && !(r.frame[0] & 0x0c == 0x08 && r.frame[1] & 3 == 0) && r.frame[0] & 0x0c != 0
    ensures Choose(net, r).Protect? && Choose(net, r).counter.slot == Group(bssid, idx) ==>
      && Choose(net, r).keyid == idx && Choose(net, r).ccmp == !net[bssid].groupTkip
      && Choose(net, r).hdrlen == GroupHdrLen(r.frame)
  {
    FrameOctets(r.frame);
  }

  // ---- Runs

  function At(pns: map<Counter, Pn>, c: Counter): Pn {
    if c in pns then pns[c] else [0, 0, 0, 0, 0, 0]
  }

  /** The counter that a request uses. */
  function CounterOf(net: Network, r: Request): Option<Counter>
    requires Valid(net, r)
  {
    match Choose(net, r)
    case Nothing => None
    case Protect(c, _, _, _) => Some(c)
  }

  /** The packet numbers after the next use of a counter; TKIP frames use one up too, although none is sent. */
  function Use(pns: map<Counter, Pn>, c: Option<Counter>): map<Counter, Pn> {
    if c == None then pns else pns[c.value := Inc(At(pns, c.value))]
  }

  function After(net: Network, pns: map<Counter, Pn>, r: Request): map<Counter, Pn>
    requires Valid(net, r)
  {
    Use(pns, CounterOf(net, r))
  }

  ghost predicate AllValid(net: Network, rs: seq<Request>) {
    forall k :: 0 <= k < |rs| ==> Valid(net, rs[k])
  }

  /** The counters that a run uses, one for each request. */
  ghost function Used(net: Network, rs: seq<Request>): (cs: seq<Option<Counter>>)
    requires AllValid(net, rs)
    ensures |cs| == |rs|
  {
    seq(|rs|, k requires 0 <= k < |rs| => CounterOf(net, rs[k]))
  }

  function UseAll(pns: map<Counter, Pn>, cs: seq<Option<Counter>>): map<Counter, Pn> {
    if cs == [] then pns else Use(UseAll(pns, cs[..|cs| - 1]), cs[|cs| - 1])
  }

  ghost function Run(net: Network, pns: map<Counter, Pn>, rs: seq<Request>): map<Counter, Pn>
    requires AllValid(net, rs)
  {
    UseAll(pns, Used(net, rs))
  }

  lemma UseNext(pns: map<Counter, Pn>, cs: seq<Option<Counter>>, k: nat)
    requires k < |cs|
    ensures UseAll(pns, cs[..k + 1]) == Use(UseAll(pns, cs[..k]), cs[k])
  {
    assert cs[..k + 1][..k] == cs[..k];
  }

  /** How often a counter is used. */
  function Uses(cs: seq<Option<Counter>>, c: Counter): nat {
    if cs == [] then 0 else Uses(cs[..|cs| - 1], c) + if cs[|cs| - 1] == Some(c) then 1 else 0
  }

  lemma {:induction false} UsesCount(pns: map<Counter, Pn>, cs: seq<Option<Counter>>, c: Counter)
    ensures At(UseAll(pns, cs), c) == IncTimes(At(pns, c), Uses(cs, c))
  {
    if cs != [] {
      UsesCount(pns, cs[..|cs| - 1], c);
    }
  }

  lemma {:induction false} UsesGrow(cs: seq<Option<Counter>>, i: nat, c: Counter)
    requires i <= |cs|
    ensures Uses(cs[..i], c) <= Uses(cs, c)
  {
    if i == |cs| {
      assert cs[..i] == cs;
    } else {
      var init := cs[..|cs| - 1];
      UsesGrow(init, i, c);
      assert init[..i] == cs[..i];
    }
  }

  lemma UsesApart(cs: seq<Option<Counter>>, i: nat, j: nat, c: Counter)
    requires i < j < |cs| && cs[j] == Some(c)
    ensures Uses(cs[..i + 1], c) < Uses(cs[..j + 1], c) <= Uses(cs, c)
  {
    assert cs[..j + 1][..j] == cs[..j];
    UsesGrow(cs[..j], i + 1, c);
    assert cs[..j][..i + 1] == cs[..i + 1];
    UsesGrow(cs, j + 1, c);
  }

  /** The nonce of the frame sent with a packet number, if one is sent with CCMP. */
  function NonceWith(net: Network, r: Request, pn: Pn): Option<Octets>
    requires Valid(net, r)
  {
    match Choose(net, r)
    case Nothing => None
    case Protect(_, hdrlen, ccmp, keyid) =>
      if !ccmp || |r.frame| < hdrlen || hdrlen < 24 then None
      else Some(Nonce(SentHeader(r.frame, hdrlen, pn, keyid), pn))
  }

  /** The packet number that request k uses. */
  ghost function PnUsed(net: Network, pns: map<Counter, Pn>, rs: seq<Request>, k: nat): Pn
    requires AllValid(net, rs) && k < |rs| && Choose(net, rs[k]).Protect?
  {
    At(UseAll(pns, Used(net, rs)[..k + 1]), Choose(net, rs[k]).counter)
  }

  ghost function NonceSent(net: Network, pns: map<Counter, Pn>, rs: seq<Request>, k: nat): Option<Octets>
    requires AllValid(net, rs) && k < |rs|
  {
    if Choose(net, rs[k]) == Nothing then None else NonceWith(net, rs[k], PnUsed(net, pns, rs, k))
  }

  // ---- No nonce is used twice

  lemma ProtectedBit(fc: bv16)
    ensures Type(fc | FC_ISWEP) == Type(fc) && HasAddr4(fc | FC_ISWEP) == HasAddr4(fc)
    ensures HasQos(fc | FC_ISWEP) == HasQos(fc)
  {
  }

  lemma SentFrameControl(frame: Octets, hdrlen: nat, pn: Octets, keyid: bv8)
    requires 24 <= hdrlen <= |frame| && |pn| == 6
    ensures FrameControl(SentHeader(frame, hdrlen, pn, keyid)) == FrameControl(frame) | FC_ISWEP
  {
    SameFrameControl(frame, hdrlen);
    SentFc(frame, hdrlen, pn, keyid, FrameControl(frame[..hdrlen]) | FC_ISWEP);
  }

  lemma SentFc(frame: Octets, hdrlen: nat, pn: Octets, keyid: bv8, fc: bv16)
    requires 24 <= hdrlen <= |frame| && |pn| == 6 && fc == FrameControl(frame[..hdrlen]) | FC_ISWEP
    ensures FrameControl(SentHeader(frame, hdrlen, pn, keyid)) == fc
  {
    SentParts(frame, hdrlen, pn, keyid, fc);
    ReadBack(fc, SentHeader(frame, hdrlen, pn, keyid));
  }

  lemma SentRest(frame: Octets, hdrlen: nat, pn: Octets, keyid: bv8)
    requires 24 <= hdrlen <= |frame| && |pn| == 6
    ensures var h := SentHeader(frame, hdrlen, pn, keyid);
      h[2..hdrlen] == frame[2..hdrlen] && Addr2(h) == Addr2(frame)
  {
    SentParts(frame, hdrlen, pn, keyid, FrameControl(frame[..hdrlen]) | FC_ISWEP);
  }

  lemma SameFrameControl(frame: Octets, n: nat)
    requires 2 <= n <= |frame|
    ensures FrameControl(frame[..n]) == FrameControl(frame)
  {
    assert frame[..n][..2] == frame[..2];
  }

  lemma ReadBack(fc: bv16, h: Octets)
    requires |h| >= 2 && h[..2] == PutLe16(fc)
    ensures FrameControl(h) == fc
  {
    Le16Inverse(fc, h[..2]);
  }

  lemma SentParts(frame: Octets, hdrlen: nat, pn: Octets, keyid: bv8, fc: bv16)
    requires 24 <= hdrlen <= |frame| && |pn| == 6 && fc == FrameControl(frame[..hdrlen]) | FC_ISWEP
    ensures var h := SentHeader(frame, hdrlen, pn, keyid);
      h[..2] == PutLe16(fc) && h[2..hdrlen] == frame[2..hdrlen] && Addr2(h) == Addr2(frame)
  {
    HeaderParts(frame, hdrlen, SentHeader(frame, hdrlen, pn, keyid), PutLe16(fc), Iv(pn, keyid));
  }

  lemma HeaderParts(frame: Octets, n: nat, h: Octets, fc: Octets, iv: Octets)
    requires 24 <= n <= |frame| && |fc| == 2 && h == (fc + frame[..n][2..]) + iv
    ensures h[..2] == fc && h[2..n] == frame[2..n] && |h| >= 24 && h[10..16] == frame[10..16]
  {
    var mid := frame[2..n];
    assert frame[..n][2..] == mid;
    assert h[2..n] == mid;
    SubSlice(h, 2, n, 8, 14);
    SubSlice(frame, 2, n, 8, 14);
  }

  lemma PriorityCarries(h: Octets, frame: Octets)
    requires IsHeader(h) && IsHeader(frame) && Type(FrameControl(h)) == Type(FrameControl(frame))
    requires HasQos(FrameControl(h)) == HasQos(FrameControl(frame))
    requires HasQos(FrameControl(h)) ==> QosOctet(h) == QosOctet(frame)
    ensures NoncePriority(h) == Tid(frame)
  {
  }

  lemma QosCarries(h: Octets, frame: Octets, n: nat)
    requires IsHeader(h) && IsHeader(frame) && 24 <= n <= |h| && n <= |frame| && h[2..n] == frame[2..n]
    requires HdrLen(FrameControl(h)) == n == HdrLen(FrameControl(frame))
    requires HasQos(FrameControl(h)) && HasQos(FrameControl(frame))
    ensures QosOctet(h) == QosOctet(frame)
  {
    assert h[2..n][n - 4] == frame[2..n][n - 4];
  }

  /** The TID that selects the counter is the priority octet of the nonce. */
  lemma TidIsNoncePriority(frame: Octets, pn: Octets, keyid: bv8)
    requires IsHeader(frame) && |pn| == 6 && UnicastHdrLen(frame) <= |frame|
    ensures NoncePriority(SentHeader(frame, UnicastHdrLen(frame), pn, keyid)) == Tid(frame)
  {
    var hdrlen := UnicastHdrLen(frame);
    var h := SentHeader(frame, hdrlen, pn, keyid);
    SentFrameControl(frame, hdrlen, pn, keyid);
    SentRest(frame, hdrlen, pn, keyid);
    ProtectedBit(FrameControl(frame));
    if HasQos(FrameControl(frame)) {
      QosCarries(h, frame, hdrlen);
    }
    PriorityCarries(h, frame);
  }

  lemma NonceParts(h: Octets, pn: Octets, h': Octets, pn': Octets)
    requires IsHeader(h) && IsHeader(h') && |pn| == 6 && |pn'| == 6 && Nonce(h, pn) == Nonce(h', pn')
    ensures NoncePriority(h) == NoncePriority(h') && Addr2(h) == Addr2(h') && pn == pn'
  {
    var n, n' := Nonce(h, pn), Nonce(h', pn');
    assert n[0] == NoncePriority(h) && n[1..7] == Addr2(h) && n[7..] == pn;
    assert n'[0] == NoncePriority(h') && n'[1..7] == Addr2(h') && n'[7..] == pn';
  }

  /** The direction of a frame, from its key and its transmitter alone. */
  predicate Forth(net: Network, slot: Slot, ta: Octets) {
    match slot
    case Pairwise(bssid, _) => ta == bssid
    case Direct(bssid, k) => bssid in net && k < |net[bssid].links| && ta == net[bssid].links[k].initiator
    case Group(_, _) => true
  }

  lemma UnicastCounter(net: Network, r: Request)
    requires Valid(net, r) && Choose(net, r).Protect? && !Choose(net, r).counter.slot.Group?
    ensures var p := Choose(net, r); p.hdrlen == UnicastHdrLen(r.frame) && p.counter.tid == Tid(r.frame)
    ensures Choose(net, r).counter.forth == Forth(net, Choose(net, r).counter.slot, Addr2(r.frame))
  {
  }

  lemma GroupCounter(net: Network, r: Request)
    requires Valid(net, r) && Choose(net, r).Protect? && Choose(net, r).counter.slot.Group?
    ensures var c := Choose(net, r).counter; c == Counter(c.slot, true, 0)
  {
  }

  /** Two frames under one key that share a nonce took their packet numbers from one counter. */
  lemma SameNonceSameCounter(net: Network, r: Request, r': Request, pn: Pn, pn': Pn)
    requires Valid(net, r) && Valid(net, r') && NonceWith(net, r, pn).Some?
    requires NonceWith(net, r, pn) == NonceWith(net, r', pn')
    requires Choose(net, r).counter.slot == Choose(net, r').counter.slot
    ensures Choose(net, r).counter == Choose(net, r').counter && pn == pn'
  {
    var p, p' := Choose(net, r), Choose(net, r');
    NonceParts(SentHeader(r.frame, p.hdrlen, pn, p.keyid), pn, SentHeader(r'.frame, p'.hdrlen, pn', p'.keyid), pn');
    if p.counter.slot.Group? {
      GroupCounter(net, r);
      GroupCounter(net, r');
    } else {
      UnicastCounter(net, r);
      UnicastCounter(net, r');
      SentRest(r.frame, p.hdrlen, pn, p.keyid);
      SentRest(r'.frame, p'.hdrlen, pn', p'.keyid);
      TidIsNoncePriority(r.frame, pn, p.keyid);
      TidIsNoncePriority(r'.frame, pn', p'.keyid);
    }
  }

  /**
   Over any run of injections with fixed keys, two frames sent under one key never share a nonce, as long as
   the run uses the counter of the first of them fewer than 2^48 times.
   */
  lemma InjectedNoncesDistinct(net: Network, pns: map<Counter, Pn>, rs: seq<Request>, i: nat, j: nat)
    requires AllValid(net, rs) && i < j < |rs|
    requires NonceSent(net, pns, rs, i).Some? && NonceSent(net, pns, rs, j).Some?
    requires Choose(net, rs[i]).counter.slot == Choose(net, rs[j]).counter.slot
    requires Uses(Used(net, rs), Choose(net, rs[i]).counter) < Pow256(6)
    ensures NonceSent(net, pns, rs, i) != NonceSent(net, pns, rs, j)
  {
    if NonceSent(net, pns, rs, i) == NonceSent(net, pns, rs, j) {
      SameNonceSameCounter(net, rs[i], rs[j], PnUsed(net, pns, rs, i), PnUsed(net, pns, rs, j));
      SameCounterDistinct(net, pns, rs, i, j);
    }
  }

  lemma SameCounterDistinct(net: Network, pns: map<Counter, Pn>, rs: seq<Request>, i: nat, j: nat)
    requires AllValid(net, rs) && i < j < |rs| && Choose(net, rs[i]).Protect? && Choose(net, rs[j]).Protect?
    requires Choose(net, rs[i]).counter == Choose(net, rs[j]).counter
    requires Uses(Used(net, rs), Choose(net, rs[i]).counter) < Pow256(6)
    ensures PnUsed(net, pns, rs, i) != PnUsed(net, pns, rs, j)
  {
    var c, cs := Choose(net, rs[i]).counter, Used(net, rs);
    UsesCount(pns, cs[..i + 1], c);
    UsesCount(pns, cs[..j + 1], c);
    UsesApart(cs, i, j, c);
    IncTimesDistinct(At(pns, c), Uses(cs[..i + 1], c), Uses(cs[..j + 1], c));
  }

  // ---- wlantest_inject_prot

  method SearchLinks(links: seq<Link>, a: Octets, b: Octets) returns (k: nat)
    ensures k == FindLink(links, a, b)
  {
    k := 0;
    assert links[0..] == links;
    while k < |links| && !Connects(links[k], a, b)
      invariant k <= |links| && FindLink(links, a, b) == k + FindLink(links[k..], a, b)
    {
      assert links[k..][0] == links[k] && links[k..][1..] == links[k + 1..];
      k := k + 1;
    }
  }

  method TidAndHdrLen(h: Octets) returns (tid: bv8, hdrlen: nat)
    requires IsHeader(h)
    ensures tid == Tid(h) && hdrlen == UnicastHdrLen(h)
  {
    var fc := FrameControl(h);
    tid, hdrlen := 0, 24;
    if Type(fc) == TYPE_MGMT {
      tid := 16;
    } else if Type(fc) == TYPE_DATA {
      if fc & (FC_TODS | FC_FROMDS) == FC_TODS | FC_FROMDS {
        hdrlen := hdrlen + 6;
      }
      if Subtype(fc) & 0x08 != 0 {
        tid := h[hdrlen] & 0x0f;
        hdrlen := hdrlen + 2;
      }
    }
  }

  /** The frame as sent under a key, or nothing if the header does not fit or TKIP would be needed. */
  function SentFrame(E: Cipher, p: Choice, frame: Octets, pn: Pn): Option<Octets> {
    if p.Nothing? || !p.ccmp || |frame| < p.hdrlen || p.hdrlen < 24 then None
    else Some(Encapsulate(E, frame, p.hdrlen, pn, p.keyid))
  }

  /** What is sent can be opened with the key it was sent under, and nothing else comes out of it. */
  lemma SentFrameOpens(E: Cipher, p: Choice, frame: Octets, pn: Pn)
    requires SentFrame(E, p, frame, pn).Some?
    ensures var sent := SentFrame(E, p, frame, pn).value;
      && |sent| == |frame| + 16 && IsHeader(sent) && sent[2..p.hdrlen] == frame[2..p.hdrlen]
      && GetPn(sent[p.hdrlen..]) == pn && Decapsulate(E, sent, sent[p.hdrlen..]) == Some(frame[p.hdrlen..])
  {
    var sent, h := SentFrame(E, p, frame, pn).value, SentHeader(frame, p.hdrlen, pn, p.keyid);
    CcmpRoundTripUnchanged(E, frame, p.hdrlen, pn, p.keyid);
    SentRest(frame, p.hdrlen, pn, p.keyid);
    assert sent[..p.hdrlen + 8] == h;
    assert sent[2..p.hdrlen] == h[2..p.hdrlen];
    assert sent[p.hdrlen..] == Iv(pn, p.keyid) + sent[p.hdrlen + 8..];
    GetPnOfIv(pn, p.keyid, sent[p.hdrlen + 8..]);
  }

  /** The nonce that the header of a sent frame gives its receiver. */
  function FrameNonce(sent: Octets, hdrlen: nat): Octets {
    if hdrlen + 8 <= |sent| && IsHeader(sent[..hdrlen + 8])
    then Nonce(sent[..hdrlen + 8], GetPn(sent[hdrlen..hdrlen + 8])) else []
  }

  lemma FrameCarriesNonce(E: Cipher, frame: Octets, hdrlen: nat, pn: Pn, keyid: bv8)
    requires 24 <= hdrlen <= |frame|
    ensures FrameNonce(Encapsulate(E, frame, hdrlen, pn, keyid), hdrlen) == Nonce(SentHeader(frame, hdrlen, pn, keyid), pn)
  {
    var h, sent := SentHeader(frame, hdrlen, pn, keyid), Encapsulate(E, frame, hdrlen, pn, keyid);
    var iv := Iv(pn, keyid);
    assert sent[..hdrlen + 8] == h;
    assert h[hdrlen..hdrlen + 8] == iv && sent[hdrlen..hdrlen + 8] == iv + [];
    GetPnOfIv(pn, keyid, []);
  }

  /** What was sent for request k is what the run says, and its header gives the nonce that the run says. */
  ghost predicate AsTold(net: Network, pns: map<Counter, Pn>, rs: seq<Request>, k: nat, sent: Option<Octets>)
    requires AllValid(net, rs) && k < |rs|
  {
    NonceSent(net, pns, rs, k) ==
      if sent.Some? && Choose(net, rs[k]).Protect? then Some(FrameNonce(sent.value, Choose(net, rs[k]).hdrlen)) else None
  }

  lemma SentAsTold(E: Cipher, net: Network, pns: map<Counter, Pn>, rs: seq<Request>, k: nat)
    requires AllValid(net, rs) && k < |rs| && Choose(net, rs[k]).Protect?
    ensures AsTold(net, pns, rs, k, SentFrame(E, Choose(net, rs[k]), rs[k].frame, PnUsed(net, pns, rs, k)))
  {
    var p, pn := Choose(net, rs[k]), PnUsed(net, pns, rs, k);
    if p.ccmp && 24 <= p.hdrlen <= |rs[k].frame| {
      FrameCarriesNonce(E, rs[k].frame, p.hdrlen, pn, p.keyid);
    }
  }

  /** The first k requests are done. */
  ghost predicate Done(net: Network, start: map<Counter, Pn>, rs: seq<Request>, k: nat, pns: map<Counter, Pn>,
      sent: seq<Option<Octets>>)
    requires AllValid(net, rs)
  {
    && k <= |rs| && |sent| == k && pns == UseAll(start, Used(net, rs)[..k])
    && forall i :: 0 <= i < k ==> AsTold(net, start, rs, i, sent[i])
  }

  lemma DoneNext(net: Network, start: map<Counter, Pn>, rs: seq<Request>, k: nat, pns: map<Counter, Pn>,
      sent: seq<Option<Octets>>, pns': map<Counter, Pn>, s: Option<Octets>)
    requires AllValid(net, rs) && k < |rs| && Done(net, start, rs, k, pns, sent)
    requires pns' == After(net, pns, rs[k]) && AsTold(net, start, rs, k, s)
    ensures Done(net, start, rs, k + 1, pns', sent + [s])
  {
    UseNext(start, Used(net, rs), k);
    forall i | 0 <= i < k + 1 ensures AsTold(net, start, rs, i, (sent + [s])[i]) {
      assert i < k ==> (sent + [s])[i] == sent[i];
    }
  }

  lemma DoneAll(net: Network, start: map<Counter, Pn>, rs: seq<Request>, pns: map<Counter, Pn>, sent: seq<Option<Octets>>)
    requires AllValid(net, rs) && Done(net, start, rs, |rs|, pns, sent)
    ensures pns == Run(net, start, rs) && DistinctNonces(net, rs, sent)
  {
    assert Used(net, rs)[..|rs|] == Used(net, rs);
    AllDistinct(net, start, rs, sent);
  }

  /** Both requests use one key, and the run uses the counter of the first fewer than 2^48 times. */
  ghost predicate SameKey(net: Network, rs: seq<Request>, i: nat, j: nat)
    requires AllValid(net, rs) && i < |rs| && j < |rs|
  {
    && Choose(net, rs[i]).Protect? && Choose(net, rs[j]).Protect?
    && Choose(net, rs[i]).counter.slot == Choose(net, rs[j]).counter.slot
    && Uses(Used(net, rs), Choose(net, rs[i]).counter) < Pow256(6)
  }

  /** No two frames sent under one key carry the same nonce, for counters used fewer than 2^48 times. */
  ghost predicate DistinctNonces(net: Network, rs: seq<Request>, sent: seq<Option<Octets>>)
    requires AllValid(net, rs) && |sent| == |rs|
  {
    forall i, j :: 0 <= i < j < |sent| && sent[i].Some? && sent[j].Some? && SameKey(net, rs, i, j) ==>
      FrameNonce(sent[i].value, Choose(net, rs[i]).hdrlen) != FrameNonce(sent[j].value, Choose(net, rs[j]).hdrlen)
  }

  lemma AllDistinct(net: Network, pns: map<Counter, Pn>, rs: seq<Request>, sent: seq<Option<Octets>>)
    requires AllValid(net, rs) && |sent| == |rs| && forall k :: 0 <= k < |rs| ==> AsTold(net, pns, rs, k, sent[k])
    ensures DistinctNonces(net, rs, sent)
  {
    forall i, j | 0 <= i < j < |sent| && sent[i].Some? && sent[j].Some? && SameKey(net, rs, i, j)
      ensures FrameNonce(sent[i].value, Choose(net, rs[i]).hdrlen) != FrameNonce(sent[j].value, Choose(net, rs[j]).hdrlen)
    {
      assert AsTold(net, pns, rs, i, sent[i]) && AsTold(net, pns, rs, j, sent[j]);
      InjectedNoncesDistinct(net, pns, rs, i, j);
    }
  }

  class Injector {
    var net: Network
    var pns: map<Counter, Pn>

    constructor (net: Network)
      ensures this.net == net && pns == map[]
    {
      this.net := net;
      pns := map[];
    }

    method ChooseKey(r: Request) returns (p: Choice)
      requires Valid(net, r)
      ensures p == Choose(net, r)
    {
      var bssid, sta, h := r.bssid, r.sta, r.frame;
      if OnDirectLink(h) {
        bssid := Addr3(h);
        if bssid !in net {
          return Nothing;
        }
        if Addr2(h) !in net[bssid].stas || Addr1(h) !in net[bssid].stas {
          return Nothing;
        }
        sta := Some(Addr2(h));
        var links := net[bssid].links;
        var k := SearchLinks(links, Addr2(h), Addr1(h));
        if k < |links| {
          var tid, hdrlen := TidAndHdrLen(h);
          return Protect(Counter(Direct(bssid, k), Addr2(h) == links[k].initiator, tid), hdrlen, true, 0);
        }
      }
      if sta == None {
        p := ChooseGroupKey(bssid, h);
      } else {
        p := ChoosePairwiseKey(bssid, sta.value, h);
      }
    }

    /** wlantest_inject_prot_bc; group-addressed management frames take another way. */
    method ChooseGroupKey(bssid: Octets, h: Octets) returns (p: Choice)
      requires IsHeader(h) && bssid in net
      ensures p == ChooseGroup(net, bssid, h)
    {
      var bss := net[bssid];
      if Type(FrameControl(h)) == TYPE_MGMT {
        return Nothing;
      }
      if !bss.gtkKnown {
        return Nothing;
      }
      var hdrlen := 24;
      if FrameControl(h) & (FC_TODS | FC_FROMDS) == FC_TODS | FC_FROMDS {
        hdrlen := hdrlen + 6;
      }
      return Protect(Counter(Group(bssid, bss.gtkIdx), true, 0), hdrlen, !bss.groupTkip, bss.gtkIdx);
    }

    method ChoosePairwiseKey(bssid: Octets, sta: Octets, h: Octets) returns (p: Choice)
      requires IsHeader(h) && bssid in net && sta in net[bssid].stas
      ensures p == ChoosePairwise(net, bssid, sta, h)
    {
      var s := net[bssid].stas[sta];
      if !s.ptkSet {
        return Nothing;
      }
      var tid, hdrlen := TidAndHdrLen(h);
      return Protect(Counter(Pairwise(bssid, sta), Addr2(h) == bssid, tid), hdrlen, !s.tkip, 0);
    }

    /** Take the next packet number of a counter. */
    method NextPn(c: Counter) returns (pn: Pn)
      modifies this`pns
      ensures pn == Inc(At(old(pns), c)) && pns == old(pns)[c := pn]
    {
      var start := At(pns, c);
      var a := new bv8[6](i requires 0 <= i < 6 => start[i]);
      assert a[..] == start;
      IncByteArray(a);
      pn := a[..];
      pns := pns[c := pn];
    }

    method InjectProt(r: Request, key: Slot -> Cipher, dummy: Cipher, incorrectKey: bool) returns (sent: Option<Octets>)
      requires Valid(net, r)
      modifies this`pns
      ensures pns == After(net, old(pns), r)
      ensures var p := Choose(net, r);
        if p.Nothing? then sent == None
        else sent == SentFrame(if incorrectKey then dummy else key(p.counter.slot), p, r.frame, At(pns, p.counter))
    {
      var p := ChooseKey(r);
      if p.Nothing? {
        return None;
      }
      var pn := NextPn(p.counter);
      var E := if incorrectKey then dummy else key(p.counter.slot);
      if !p.ccmp {
        return None;
      }
      var crypt, len := CcmpEncrypt(E, r.frame, p.hdrlen, pn, p.keyid);
      if crypt == null {
        return None;
      }
      return Some(crypt[..len]);
    }

    /** One request after the other, each with the right key or with the dummy key. */
    method InjectAll(rs: seq<Request>, key: Slot -> Cipher, dummy: Cipher, incorrectKey: seq<bool>)
      returns (sent: seq<Option<Octets>>)
      requires AllValid(net, rs) && |incorrectKey| == |rs|
      modifies this`pns
      ensures pns == Run(net, old(pns), rs) && |sent| == |rs|
      ensures forall k :: 0 <= k < |rs| ==> AsTold(net, old(pns), rs, k, sent[k])
      ensures DistinctNonces(net, rs, sent)
    {
      ghost var start := pns;
      sent := [];
      var k := 0;
      while k < |rs|
        invariant k <= |rs| && Done(net, start, rs, k, pns, sent)
      {
        ghost var before := pns;
        var s := InjectNext(rs, k, key, dummy, incorrectKey[k], start);
        DoneNext(net, start, rs, k, before, sent, pns, s);
        sent := sent + [s];
        k := k + 1;
      }
      DoneAll(net, start, rs, pns, sent);
    }

    method InjectNext(rs: seq<Request>, k: nat, key: Slot -> Cipher, dummy: Cipher, incorrect: bool,
        ghost start: map<Counter, Pn>)
      returns (s: Option<Octets>)
      requires AllValid(net, rs) && k < |rs| && pns == UseAll(start, Used(net, rs)[..k])
      modifies this`pns
      ensures pns == After(net, old(pns), rs[k]) && AsTold(net, start, rs, k, s)
    {
      ghost var p := Choose(net, rs[k]);
      UseNext(start, Used(net, rs), k);
      s := InjectProt(rs[k], key, dummy, incorrect);
      if p.Protect? {
        SentAsTold(if incorrect then dummy else key(p.counter.slot), net, start, rs, k);
      }
    }
  }
}
