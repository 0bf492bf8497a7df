/** Which BSSs are in the table: the exact list after a scan result, and presence over any run. */
module BssPresence {
  import opened Lists
  import opened Wrappers
  import opened OctetNumbers
  import opened Histories
  import opened BssModel
  import opened BssRuns
  import opened BssHistory

  type Name = (Address, seq<Octet>)

  predicate Holds(list: seq<Bss>, name: Name) {
    exists k :: 0 <= k < |list| && list[k].bssid == name.0 && list[k].ssid == name.1
  }

  // ---- Accepted results

  ghost predicate SsidAt(es: seq<Element>, k: nat, ssid: seq<Octet>) {
    k < |es| && es[k] == Element(0, ssid) && forall j :: 0 <= j < k ==> es[j].id != 0
  }

  /** A vendor specific element of the Wi-Fi Alliance, type P2P. */
  predicate P2pAt(es: seq<Element>, k: nat) {
    k < |es| && es[k].id == 221 && [0x50, 0x6f, 0x9a, 9] <= es[k].body
  }

  lemma FirstSsid(es: seq<Element>, ssid: seq<Octet>)
    ensures First(es, HasId(EID_SSID)) == Some(Element(0, ssid)) <==> exists k: nat :: SsidAt(es, k, ssid)
  {
    if First(es, HasId(EID_SSID)).Some? {
      var k := FirstSome(es, HasId(EID_SSID));
      forall j: nat | SsidAt(es, j, ssid) ensures j == k {
      }
      assert forall j :: 0 <= j < k ==> !HasId(EID_SSID)(es[j]);
      assert es[k] == Element(0, ssid) ==> SsidAt(es, k, ssid);
    } else {
      FirstNone(es, HasId(EID_SSID));
      forall j: nat ensures !SsidAt(es, j, ssid) {
        assert j < |es| ==> !HasId(EID_SSID)(es[j]);
      }
    }
  }

  lemma SomeP2p(es: seq<Element>)
    ensures First(es, IsP2p).Some? <==> exists k: nat :: P2pAt(es, k)
  {
    if First(es, IsP2p).Some? {
      var k := FirstSome(es, IsP2p);
      assert P2pAt(es, k);
    } else {
      FirstNone(es, IsP2p);
      forall k: nat ensures !P2pAt(es, k) {
        assert k < |es| ==> !IsP2p(es[k]);
      }
    }
  }

  /**
   A result is stored under an SSID if and only if that is the body of its first SSID element and no longer than 32
   octets, and it is not the wildcard "DIRECT-" of a P2P device.
   */
  lemma AcceptsIff(es: seq<Element>, ssid: seq<Octet>)
    requires forall k :: 0 <= k < |es| ==> |es[k].body| < 256
    ensures Accepts(Encoding(es)) == Some(ssid) <==>
      && (exists k: nat :: SsidAt(es, k, ssid)) && |ssid| <= 32
      && !(ssid == ['D' as int, 'I' as int, 'R' as int, 'E' as int, 'C' as int, 'T' as int, '-' as int]
           && exists k: nat :: P2pAt(es, k))
  {
    ElementsOfEncoding(es, []);
    assert Encoding(es) + [] == Encoding(es);
    FirstSsid(es, ssid);
    SomeP2p(es);
    if First(es, HasId(EID_SSID)).Some? {
      var k := FirstSome(es, HasId(EID_SSID));
      assert HasId(EID_SSID)(es[k]);
    }
  }

  // ---- After a scan result

  /** A configured network has this SSID. */
  predicate Configured(env: Env, ssid: seq<Octet>) {
    ssid != [] && ssid in env.networks
  }

  lemma KnownIsConfigured(env: Env, b: Bss)
    ensures Known(env, b) <==> Configured(env, b.ssid)
  {
  }

  /** Position k gives way: the first that is not configured, or else the first. */
  ghost predicate GivesWay(env: Env, list: seq<Bss>, k: nat) {
    && k < |list| && (forall j :: 0 <= j < k ==> Configured(env, list[j].ssid))
    && (Configured(env, list[k].ssid) ==> k == 0 && forall j :: 0 <= j < |list| ==> Configured(env, list[j].ssid))
  }

  /** The entry that a result leaves in the table. */
  ghost predicate Sighted(t: Table, e: Event, ssid: seq<Octet>, id: nat, b: Bss)
    requires e.Result?
  {
    && b.id == id && b.bssid == e.res.bssid && b.ssid == ssid && b.missCount == 0 && b.lastUpdateIdx == t.updateIdx
    && Stores(b, e)
  }

  lemma NotFound(list: seq<Bss>, name: Name)
    ensures Find(list, name) == None <==> !Holds(list, name)
  {
    FindIs(list, name);
    if Find(list, name) == None {
      FirstNone(list, HasKey(name));
      forall k | 0 <= k < |list| ensures !(list[k].bssid == name.0 && list[k].ssid == name.1) {
        assert !HasKey(name)(list[k]);
      }
    } else {
      var k :| 0 <= k < |list| && list[k] == Find(list, name).value;
      assert list[k].bssid == name.0;
    }
  }

  /** A BSS that is not in the table is added at the end, with the next id. */
  lemma SightAdds(t: Table, e: Event, ssid: seq<Octet>) returns (b: Bss)
    requires Inv(t) && e.Result? && Accepts(e.res.ies) == Some(ssid) && !Holds(t.list, (e.res.bssid, ssid))
    requires |t.list| < e.env.maxCount
    ensures Sighted(t, e, ssid, t.nextId, b)
    ensures Step(t, e) == Table(t.list + [b], t.nextId + 1, t.updateIdx)
  {
    b := Fresh(t, ssid, e.res, e.now);
    NotFound(t.list, (e.res.bssid, ssid));
    FreshStores(t, ssid, e);
  }

  lemma AcceptedFits(ies: seq<Octet>)
    ensures Accepts(ies).Some? ==> |Accepts(ies).value| <= 32
  {
  }

  /** In a full table one position gives way, which may be the new one. */
  lemma SightEvicts(t: Table, e: Event, ssid: seq<Octet>) returns (b: Bss, k: nat)
    requires Inv(t) && e.Result? && Accepts(e.res.ies) == Some(ssid) && !Holds(t.list, (e.res.bssid, ssid))
    requires |t.list| >= e.env.maxCount
    ensures Sighted(t, e, ssid, t.nextId, b) && GivesWay(e.env, t.list + [b], k)
    ensures Step(t, e) == Table((t.list + [b])[..k] + (t.list + [b])[k + 1..], t.nextId + 1, t.updateIdx)
  {
    b := Fresh(t, ssid, e.res, e.now);
    NotFound(t.list, (e.res.bssid, ssid));
    FreshStores(t, ssid, e);
    var list := t.list + [b];
    var roomy := e.env.(maxCount := |list|);
    AcceptedFits(e.res.ies);
    AddInv(t, roomy, ssid, e.res, e.now);
    k := EvictsOldest(Add(t, roomy, ssid, e.res, e.now), e.env);
    forall j | 0 <= j < |list| ensures Known(e.env, list[j]) <==> Configured(e.env, list[j].ssid) {
      KnownIsConfigured(e.env, list[j]);
    }
  }

  /** A BSS that is in the table keeps its id and moves to the end. */
  lemma SightUpdates(t: Table, e: Event, ssid: seq<Octet>, k: nat) returns (b: Bss)
    requires Inv(t) && e.Result? && Accepts(e.res.ies) == Some(ssid)
    requires k < |t.list| && t.list[k].bssid == e.res.bssid && t.list[k].ssid == ssid
    ensures Sighted(t, e, ssid, t.list[k].id, b)
    ensures Step(t, e) == Table(t.list[..k] + t.list[k + 1..] + [b], t.nextId, t.updateIdx)
  {
    var a := t.list[k];
    FindIs(t.list, a.Key());
    NotFound(t.list, a.Key());
    var f := Find(t.list, a.Key()).value;
    if f != a {
      OthersDiffer(t.list, a, f);
    }
    assert Proper(t, a);
    RefreshStores(a, t.updateIdx, e);
    b := Refresh(a, t.updateIdx, e.res, e.now);
    WithoutOne(t.list, k);
  }

  // ---- What takes an entry out

  /** The result adds a BSS to a full table, and the entry of that name gives way. */
  ghost predicate Evicts(t: Table, e: Event, name: Name) {
    && Accepted(e) && !Holds(t.list, (e.res.bssid, Accepts(e.res.ies).value)) && |t.list| >= e.env.maxCount
    && exists k :: 0 <= k <= |t.list| && EvictedAt(t, e, name, k)
  }

  /** Position k, the new BSS being behind the last, has the name and gives way. */
  ghost predicate EvictedAt(t: Table, e: Event, name: Name, k: int)
    requires Accepted(e) && 0 <= k <= |t.list|
  {
    var ssids := seq(|t.list|, j requires 0 <= j < |t.list| => t.list[j].ssid) + [Accepts(e.res.ies).value];
    && name == (if k < |t.list| then (t.list[k].bssid, t.list[k].ssid) else (e.res.bssid, Accepts(e.res.ies).value))
    && (forall j :: 0 <= j < k ==> Configured(e.env, ssids[j]))
    && (Configured(e.env, ssids[k]) ==> k == 0 && forall j :: 0 <= j < |ssids| ==> Configured(e.env, ssids[j]))
  }

  /** A new scan covered the entry, it was not in use, and with this miss it has reached the limit. */
  predicate Expires(t: Table, e: Event, b: Bss) {
    && e.End? && e.newScan && !InUse(e.env, b) && Covered(e.info, b)
    && b.missCount + (if b.lastUpdateIdx < t.updateIdx then 1 else 0) >= e.env.expirationScanCount
  }

  /** Neither it nor any before it, unless in use, is younger than the limit. */
  predicate TooOld(list: seq<Bss>, env: Env, limit: Time, k: nat)
    requires k < |list|
  {
    !InUse(env, list[k]) && forall j :: 0 <= j <= k ==> InUse(env, list[j]) || Before(list[j].lastUpdate, limit)
  }

  predicate Ages(t: Table, e: Event, k: nat)
    requires k < |t.list|
  {
    e.FlushByAge? && TooOld(t.list, e.env, Time(e.now.sec - e.age, e.now.usec), k)
  }

  predicate Flushed(e: Event, b: Bss) {
    e.Flush? && !InUse(e.env, b)
  }

  /** The event takes the entry of that name out of the table, or does not let it in. */
  ghost predicate TakesOut(t: Table, e: Event, name: Name) {
    || Evicts(t, e, name)
    || exists k :: 0 <= k < |t.list| && t.list[k].Key() == name &&
         (Expires(t, e, t.list[k]) || Ages(t, e, k) || Flushed(e, t.list[k]))
  }

  // ---- Presence after one event

  lemma EvictedIs(t: Table, e: Event, name: Name, b: Bss, k: nat)
    requires Accepted(e) && Sighted(t, e, Accepts(e.res.ies).value, t.nextId, b) && k <= |t.list|
    ensures EvictedAt(t, e, name, k) <==> GivesWay(e.env, t.list + [b], k) && (t.list + [b])[k].Key() == name
  {
    var list := t.list + [b];
    var ssids := seq(|t.list|, j requires 0 <= j < |t.list| => t.list[j].ssid) + [Accepts(e.res.ies).value];
    assert |list| == |ssids| && forall j :: 0 <= j < |list| ==> ssids[j] == list[j].ssid;
  }

  lemma OneGivesWay(env: Env, list: seq<Bss>, j: nat, k: nat)
    requires GivesWay(env, list, j) && GivesWay(env, list, k)
    ensures j == k
  {
  }

  lemma HeldByRest(list: seq<Bss>, k: nat, j: nat, name: Name)
    requires k < |list| && Pairwise(list, DistinctKeys)
    requires j < |list| - 1 && (list[..k] + list[k + 1..])[j].Key() == name
    ensures Holds(list, name) && list[k].Key() != name
  {
    var i := if j < k then j else j + 1;
    assert (list[..k] + list[k + 1..])[j] == list[i];
    assert if i < k then DistinctKeys(list[i], list[k]) else DistinctKeys(list[k], list[i]);
  }

  lemma HeldByOther(list: seq<Bss>, k: nat, i: nat, name: Name)
    requires k < |list| && i < |list| && i != k && list[i].Key() == name
    ensures Holds(list[..k] + list[k + 1..], name)
  {
    assert (list[..k] + list[k + 1..])[if i < k then i else i - 1] == list[i];
  }

  lemma HoldsWithout(list: seq<Bss>, k: nat, name: Name)
    requires k < |list| && Pairwise(list, DistinctKeys)
    ensures Holds(list[..k] + list[k + 1..], name) <==> Holds(list, name) && list[k].Key() != name
  {
    var rest := list[..k] + list[k + 1..];
    if Holds(rest, name) {
      var j :| 0 <= j < |rest| && rest[j].bssid == name.0 && rest[j].ssid == name.1;
      HeldByRest(list, k, j, name);
    }
    if Holds(list, name) && list[k].Key() != name {
      var i :| 0 <= i < |list| && list[i].bssid == name.0 && list[i].ssid == name.1;
      HeldByOther(list, k, i, name);
    }
  }

  lemma HoldsAppended(list: seq<Bss>, b: Bss, name: Name)
    ensures Holds(list + [b], name) <==> Holds(list, name) || b.Key() == name
  {
    var all := list + [b];
    if Holds(list, name) {
      var k :| 0 <= k < |list| && list[k].bssid == name.0 && list[k].ssid == name.1;
      assert all[k] == list[k];
    }
    if b.Key() == name {
      assert all[|list|] == b;
    }
  }

  /** Nothing but results and removals: presence after a result. */
  lemma PresenceAfterResult(t: Table, e: Event, name: Name)
    requires Inv(t) && e.Result?
    ensures Holds(Step(t, e).list, name) <==> (Sees(e, name) || Holds(t.list, name)) && !Evicts(t, e, name)
  {
    if Accepts(e.res.ies).Some? {
      var ssid := Accepts(e.res.ies).value;
      if Holds(t.list, (e.res.bssid, ssid)) {
        PresenceAfterUpdate(t, e, name, ssid);
      } else if |t.list| < e.env.maxCount {
        var b := SightAdds(t, e, ssid);
        HoldsAppended(t.list, b, name);
      } else {
        PresenceAfterEviction(t, e, name, ssid);
      }
    }
  }

  lemma PresenceAfterUpdate(t: Table, e: Event, name: Name, ssid: seq<Octet>)
    requires Inv(t) && e.Result? && Accepts(e.res.ies) == Some(ssid) && Holds(t.list, (e.res.bssid, ssid))
    ensures Holds(Step(t, e).list, name) <==> Holds(t.list, name)
    ensures Sees(e, name) ==> Holds(t.list, name)
  {
    var k :| 0 <= k < |t.list| && t.list[k].bssid == e.res.bssid && t.list[k].ssid == ssid;
    var b := SightUpdates(t, e, ssid, k);
    HoldsWithout(t.list, k, name);
    HoldsAppended(t.list[..k] + t.list[k + 1..], b, name);
  }

  lemma PresenceAfterEviction(t: Table, e: Event, name: Name, ssid: seq<Octet>)
    requires Inv(t) && e.Result? && Accepts(e.res.ies) == Some(ssid) && !Holds(t.list, (e.res.bssid, ssid))
    requires |t.list| >= e.env.maxCount
    ensures Holds(Step(t, e).list, name) <==> (Sees(e, name) || Holds(t.list, name)) && !Evicts(t, e, name)
  {
    var b, k := SightEvicts(t, e, ssid);
    var list := t.list + [b];
    DistinctWith(t.list, b);
    HoldsWithout(list, k, name);
    HoldsAppended(t.list, b, name);
    EvictsIs(t, e, name, b, k);
  }

  lemma DistinctWith(list: seq<Bss>, b: Bss)
    requires Pairwise(list, DistinctKeys) && !Holds(list, b.Key())
    ensures Pairwise(list + [b], DistinctKeys)
  {
    forall x | x in list ensures DistinctKeys(x, b) {
      var k :| 0 <= k < |list| && list[k] == x;
    }
    PairwiseAppend(list, b, DistinctKeys);
  }

  lemma EvictsIs(t: Table, e: Event, name: Name, b: Bss, k: nat)
    requires Accepted(e) && Sighted(t, e, Accepts(e.res.ies).value, t.nextId, b) && GivesWay(e.env, t.list + [b], k)
    requires !Holds(t.list, (e.res.bssid, Accepts(e.res.ies).value)) && |t.list| >= e.env.maxCount
    ensures Evicts(t, e, name) <==> (t.list + [b])[k].Key() == name
  {
    EvictedIs(t, e, name, b, k);
    if Evicts(t, e, name) {
      var j :| 0 <= j <= |t.list| && EvictedAt(t, e, name, j);
      EvictedIs(t, e, name, b, j);
      OneGivesWay(e.env, t.list + [b], j, k);
    }
  }

  lemma HoldsMember(list: seq<Bss>, name: Name)
    ensures Holds(list, name) <==> exists b :: b in list && b.Key() == name
  {
    if Holds(list, name) {
      var k :| 0 <= k < |list| && list[k].bssid == name.0 && list[k].ssid == name.1;
      assert list[k] in list;
    }
    forall b | b in list && b.Key() == name ensures Holds(list, name) {
      var k :| 0 <= k < |list| && list[k] == b;
    }
  }

  lemma SameKey(list: seq<Bss>, j: int, k: int)
    requires Pairwise(list, DistinctKeys) && 0 <= j < |list| && 0 <= k < |list| && list[j].Key() == list[k].Key()
    ensures j == k
  {
    assert j < k ==> DistinctKeys(list[j], list[k]);
    assert k < j ==> DistinctKeys(list[k], list[j]);
  }

  lemma ExpiresIs(t: Table, e: Event, b: Bss)
    requires e.End? && e.newScan
    ensures Expires(t, e, b) <==> Expired(e.env, e.info, t.updateIdx, b)
    ensures Counted(e.env, e.info, t.updateIdx, b).Key() == b.Key()
  {
  }

  lemma UnexpiredStays(t: Table, e: Event, b: Bss)
    requires e.End? && e.newScan && b in t.list && !Expires(t, e, b)
    ensures Holds(Step(t, e).list, b.Key())
  {
    var c := Counted(e.env, e.info, t.updateIdx, b);
    ExpiresIs(t, e, b);
    ExpireMembers(t.list, e.env, e.info, t.updateIdx, c);
    HoldsMember(Step(t, e).list, b.Key());
    assert c in Step(t, e).list;
  }

  lemma StayedIsUnexpired(t: Table, e: Event, k: nat, x: Bss)
    requires Inv(t) && e.End? && e.newScan && k < |t.list| && x in Step(t, e).list && x.Key() == t.list[k].Key()
    ensures !Expires(t, e, t.list[k])
  {
    ExpireMembers(t.list, e.env, e.info, t.updateIdx, x);
    var a :| a in t.list && !Expired(e.env, e.info, t.updateIdx, a) && x == Counted(e.env, e.info, t.updateIdx, a);
    ExpiresIs(t, e, a);
    var j :| 0 <= j < |t.list| && t.list[j] == a;
    SameKey(t.list, j, k);
  }

  lemma PresenceAfterExpiry(t: Table, e: Event, k: nat)
    requires Inv(t) && e.End? && e.newScan && k < |t.list|
    ensures Holds(Step(t, e).list, t.list[k].Key()) <==> !Expires(t, e, t.list[k])
  {
    var b, list := t.list[k], Step(t, e).list;
    HoldsMember(list, b.Key());
    if !Expires(t, e, b) {
      UnexpiredStays(t, e, b);
    }
    forall x | x in list && x.Key() == b.Key() ensures !Expires(t, e, b) {
      StayedIsUnexpired(t, e, k, x);
    }
  }

  lemma OnlyOldNames(t: Table, e: Event, name: Name)
    requires Inv(t) && !Sees(e, name) && Holds(Step(t, e).list, name)
    ensures Holds(t.list, name)
  {
    HoldsMember(Step(t, e).list, name);
    var b :| b in Step(t, e).list && b.Key() == name;
    StepOrigin(t, e, b);
    var a :| a in t.list && SameEntry(a, b);
    HoldsMember(t.list, name);
    assert a.Key() == name;
  }

  lemma HoldsAfter(a: Bss, list: seq<Bss>, name: Name)
    ensures Holds([a] + list, name) <==> a.Key() == name || Holds(list, name)
  {
    var all := [a] + list;
    if a.Key() == name {
      assert all[0] == a;
    }
    if Holds(list, name) {
      var k :| 0 <= k < |list| && list[k].bssid == name.0 && list[k].ssid == name.1;
      assert all[k + 1] == list[k];
    }
    if Holds(all, name) {
      var k :| 0 <= k < |all| && all[k].bssid == name.0 && all[k].ssid == name.1;
      assert k > 0 ==> all[k] == list[k - 1];
    }
  }

  lemma FirstIsFlushed(list: seq<Bss>, env: Env, limit: Time)
    requires list != [] && Pairwise(list, DistinctKeys)
    ensures !Holds(FlushOld(list[1..], env, limit), list[0].Key())
  {
    var rest := FlushOld(list[1..], env, limit);
    HoldsMember(rest, list[0].Key());
    forall b | b in rest ensures b.Key() != list[0].Key() {
      FlushOldMembers(list[1..], env, limit, b);
      var k :| 0 <= k < |list[1..]| && list[1..][k] == b;
      assert DistinctKeys(list[0], list[k + 1]);
    }
  }

  lemma TooOldNext(list: seq<Bss>, env: Env, limit: Time, k: nat)
    requires 0 < k < |list| && (InUse(env, list[0]) || Before(list[0].lastUpdate, limit))
    ensures TooOld(list, env, limit, k) <==> TooOld(list[1..], env, limit, k - 1)
  {
    if TooOld(list[1..], env, limit, k - 1) {
      forall j | 0 < j <= k ensures InUse(env, list[j]) || Before(list[j].lastUpdate, limit) {
        assert list[1..][j - 1] == list[j];
      }
    }
  }

  lemma {:induction false} FlushOldHolds(list: seq<Bss>, env: Env, limit: Time, k: nat)
    requires Pairwise(list, DistinctKeys) && k < |list|
    ensures Holds(FlushOld(list, env, limit), list[k].Key()) <==> !TooOld(list, env, limit, k)
  {
    if InUse(env, list[0]) || Before(list[0].lastUpdate, limit) {
      HoldsAfter(list[0], FlushOld(list[1..], env, limit), list[k].Key());
      if k == 0 {
        FirstIsFlushed(list, env, limit);
      } else {
        assert DistinctKeys(list[0], list[k]);
        TooOldNext(list, env, limit, k);
        FlushOldHolds(list[1..], env, limit, k - 1);
      }
    } else {
      assert FlushOld(list, env, limit) == list;
    }
  }

  lemma FlushHolds(t: Table, e: Event, k: nat)
    requires Inv(t) && e.Flush? && k < |t.list|
    ensures Holds(Step(t, e).list, t.list[k].Key()) <==> !Flushed(e, t.list[k])
  {
    var b, name, list := t.list[k], t.list[k].Key(), Step(t, e).list;
    HoldsMember(list, name);
    KeepMembers(t.list, UsedIn(e.env), b);
    forall x | x in list && x.Key() == name ensures x == b {
      KeepMembers(t.list, UsedIn(e.env), x);
      var j :| 0 <= j < |t.list| && t.list[j] == x;
      SameKey(t.list, j, k);
    }
  }

  lemma PresenceAt(t: Table, e: Event, k: nat)
    requires Inv(t) && !e.Result? && k < |t.list|
    ensures Holds(Step(t, e).list, t.list[k].Key()) <==>
      !Expires(t, e, t.list[k]) && !Ages(t, e, k) && !Flushed(e, t.list[k])
  {
    match e
    case Start => HoldsMember(t.list, t.list[k].Key());
    case End(env, info, newScan) =>
      if newScan {
        PresenceAfterExpiry(t, e, k);
      } else {
        HoldsMember(t.list, t.list[k].Key());
      }
    case FlushByAge(env, now, age) => FlushOldHolds(t.list, env, now.(sec := now.sec - age), k);
    case Flush(env) => FlushHolds(t, e, k);
  }

  /** After one event a BSS is in the table if and only if it was or is seen, and the event does not take it out. */
  lemma PresenceAfter(t: Table, e: Event, name: Name)
    requires Inv(t)
    ensures Holds(Step(t, e).list, name) <==> (Sees(e, name) || Holds(t.list, name)) && !TakesOut(t, e, name)
  {
    if e.Result? {
      PresenceAfterResult(t, e, name);
    } else if Holds(t.list, name) {
      var k :| 0 <= k < |t.list| && t.list[k].bssid == name.0 && t.list[k].ssid == name.1;
      PresenceAt(t, e, k);
      forall j | 0 <= j < |t.list| && t.list[j].Key() == name ensures j == k {
        SameKey(t.list, j, k);
      }
    } else if Holds(Step(t, e).list, name) {
      OnlyOldNames(t, e, name);
    }
  }

  // ---- Presence over runs

  ghost function InTable(es: seq<Event>, name: Name): nat -> bool {
    (k: nat) => k <= |es| && Holds(Run(es[..k]).list, name)
  }

  ghost function SeenAt(es: seq<Event>, name: Name): nat -> bool {
    (k: nat) => k < |es| && Sees(es[k], name) && !TakesOut(Run(es[..k]), es[k], name)
  }

  ghost function TakenOutAt(es: seq<Event>, name: Name): nat -> bool {
    (k: nat) => k < |es| && TakesOut(Run(es[..k]), es[k], name)
  }

  lemma PresenceNext(es: seq<Event>, name: Name, k: nat)
    requires k < |es|
    ensures Holds(Run(es[..k + 1]).list, name) <==>
      (Sees(es[k], name) || Holds(Run(es[..k]).list, name)) && !TakesOut(Run(es[..k]), es[k], name)
  {
    assert es[..k + 1] == es[..k] + [es[k]];
    RunLast(es[..k], es[k]);
    RunInv(es[..k]);
    PresenceAfter(Run(es[..k]), es[k], name);
  }

  /**
   After any run a BSS is in the table if and only if an accepted result has reported it and since then it has not
   been evicted, expired or flushed.
   */
  lemma PresentIff(es: seq<Event>, name: Name)
    ensures Holds(Run(es).list, name) <==> exists k: nat ::
      MadeAt(InTable(es, name), SeenAt(es, name), TakenOutAt(es, name), |es|, k)
    ensures !InTable(es, name)(0)
  {
    var holds, made, undone := InTable(es, name), SeenAt(es, name), TakenOutAt(es, name);
    forall k: nat | k < |es| ensures holds(k + 1) <==> made(k) || (holds(k) && !undone(k)) {
      PresenceNext(es, name, k);
    }
    HoldsIff(holds, made, undone, |es|);
    assert es[..|es|] == es;
  }

  /** A BSS that an accepted result reports is then in the table with what the result says, unless it gives way. */
  lemma SightedIsStored(t: Table, e: Event, name: Name) returns (b: Bss)
    requires Inv(t) && Sees(e, name) && !Evicts(t, e, name)
    ensures b in Step(t, e).list && b.Key() == name && b.missCount == 0 && Stores(b, e)
  {
    PresenceAfterResult(t, e, name);
    HoldsMember(Step(t, e).list, name);
    b :| b in Step(t, e).list && b.Key() == name;
    StepOrigin(t, e, b);
  }

  /** Any other entry stays as it is, unless it gives way. */
  lemma OthersStay(t: Table, e: Event, b: Bss)
    requires Inv(t) && e.Result? && b in t.list && !Sees(e, b.Key()) && !Evicts(t, e, b.Key())
    ensures b in Step(t, e).list
  {
    var name := b.Key();
    HoldsMember(t.list, name);
    PresenceAfterResult(t, e, name);
    HoldsMember(Step(t, e).list, name);
    var x :| x in Step(t, e).list && x.Key() == name;
    StepOrigin(t, e, x);
    var a :| a in t.list && SameEntry(a, x) && x.missCount == a.missCount;
    SameEntryIs(a, x);
    OnlyOneNamed(t.list, a, b);
  }

  lemma SameEntryIs(a: Bss, b: Bss)
    requires SameEntry(a, b) && b.missCount == a.missCount
    ensures a == b
  {
  }

  lemma OnlyOneNamed(list: seq<Bss>, a: Bss, b: Bss)
    requires Pairwise(list, DistinctKeys) && a in list && b in list && a.Key() == b.Key()
    ensures a == b
  {
    var i, j :| 0 <= i < |list| && 0 <= j < |list| && list[i] == a && list[j] == b;
    SameKey(list, i, j);
  }

  /**
   What the list holds after a result: what it held and what is reported, without the one that gives way; the entry
   that is reported has the contents of the result, and the others are as they were.
   */
  ghost predicate PresentAfter(t: Table, e: Event, list: seq<Bss>)
    requires e.Result?
  {
    && (forall name :: Holds(list, name) <==> (Sees(e, name) || Holds(t.list, name)) && !Evicts(t, e, name))
    && (forall b :: b in list && Sees(e, b.Key()) ==> Stores(b, e))
    && forall b :: b in t.list && !Sees(e, b.Key()) && !Evicts(t, e, b.Key()) ==> b in list
  }

  lemma ResultPresence(t: Table, e: Event)
    requires Inv(t) && e.Result?
    ensures PresentAfter(t, e, Step(t, e).list)
  {
    var list := Step(t, e).list;
    forall name ensures Holds(list, name) <==> (Sees(e, name) || Holds(t.list, name)) && !Evicts(t, e, name) {
      PresenceAfterResult(t, e, name);
    }
    forall b | b in list && Sees(e, b.Key()) ensures Stores(b, e) {
      StepOrigin(t, e, b);
    }
    forall b | b in t.list && !Sees(e, b.Key()) && !Evicts(t, e, b.Key()) ensures b in list {
      OthersStay(t, e, b);
    }
  }
}
