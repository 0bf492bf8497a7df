/**
 The table in memory: entries found by id, threaded on the update list and on the id list
 (hostap08/wpa_supplicant/bss.c).  Allocation succeeds, and ids and update indices do not wrap.
 */
module BssTable {
  import opened Lists
  import opened Wrappers
  import opened OctetNumbers
  import opened BssModel
  import opened BssRuns
  import opened BssHistory
  import opened BssPresence

  // ---- Lists of entries

  /** The entries that a list threads. */
  function Entries(heap: map<nat, Bss>, order: seq<nat>): (r: seq<Bss>)
    requires forall i :: i in order ==> i in heap
    ensures |r| == |order|
  {
    seq(|order|, k requires 0 <= k < |order| => heap[order[k]])
  }

  predicate Distinct(i: nat, j: nat) { i != j }

  /** Both lists thread the same entries, the id list in increasing order. */
  ghost predicate Linked(heap: map<nat, Bss>, updates: seq<nat>, ids: seq<nat>) {
    && (forall i :: i in updates <==> i in heap)
    && (forall i :: i in ids <==> i in heap)
    && (forall i :: i in heap ==> heap[i].id == i)
    && Pairwise(updates, Distinct)
    && Pairwise(ids, Less)
    && |updates| == |ids|
  }

  function NotId(id: nat): nat -> bool { (i: nat) => i != id }

  /** dl_list_del */
  function Unlink(order: seq<nat>, id: nat): seq<nat> {
    Keep(order, NotId(id))
  }

  lemma UnlinkOne(order: seq<nat>, id: nat) returns (k: nat)
    requires Pairwise(order, Distinct) && id in order
    ensures k < |order| && order[k] == id && Unlink(order, id) == order[..k] + order[k + 1..]
  {
    k :| 0 <= k < |order| && order[k] == id;
    forall j | 0 <= j < |order| && j != k ensures NotId(id)(order[j]) {
      assert j < k ==> Distinct(order[j], order[k]);
      assert k < j ==> Distinct(order[k], order[j]);
    }
    KeepButOne(order, k, NotId(id));
  }

  lemma LessIsDistinct(order: seq<nat>)
    requires Pairwise(order, Less)
    ensures Pairwise(order, Distinct)
  {
    forall i, j | 0 <= i < j < |order| ensures Distinct(order[i], order[j]) {
      assert Less(order[i], order[j]);
    }
  }

  lemma UnlinkMembers(order: seq<nat>, id: nat)
    ensures forall i :: i in Unlink(order, id) <==> i in order && i != id
  {
    forall i ensures i in Unlink(order, id) <==> i in order && i != id {
      KeepMembers(order, NotId(id), i);
    }
  }

  lemma UnlinkLinked(heap: map<nat, Bss>, updates: seq<nat>, ids: seq<nat>, id: nat)
    requires Linked(heap, updates, ids) && id in heap
    ensures Linked(heap - {id}, Unlink(updates, id), Unlink(ids, id))
    ensures |Unlink(updates, id)| == |updates| - 1
  {
    UnlinkMembers(updates, id);
    UnlinkMembers(ids, id);
    KeepPairwise(updates, NotId(id), Distinct);
    KeepPairwise(ids, NotId(id), Less);
    LessIsDistinct(ids);
    var j := UnlinkOne(updates, id);
    var k := UnlinkOne(ids, id);
  }

  lemma {:induction false} UnlinkEntries(heap: map<nat, Bss>, order: seq<nat>, id: nat)
    requires forall i :: i in order ==> i in heap && heap[i].id == i
    ensures forall i :: i in Unlink(order, id) ==> i in heap - {id}
    ensures Entries(heap - {id}, Unlink(order, id)) == Without(Entries(heap, order), id)
  {
    UnlinkMembers(order, id);
    if order != [] {
      var list := Entries(heap, order);
      assert list[0] == heap[order[0]] && list[1..] == Entries(heap, order[1..]);
      UnlinkMembers(order[1..], id);
      UnlinkEntries(heap, order[1..], id);
      var rest := Unlink(order[1..], id);
      if order[0] != id {
        assert Entries(heap - {id}, [order[0]] + rest) == [list[0]] + Entries(heap - {id}, rest);
      }
    }
  }

  lemma EntriesSame(heap: map<nat, Bss>, heap': map<nat, Bss>, order: seq<nat>)
    requires forall i :: i in order ==> i in heap && i in heap' && heap[i] == heap'[i]
    ensures Entries(heap, order) == Entries(heap', order)
  {
  }

  // ---- The loops over information elements, networks and scan parameters

  method ScanGetIe(ies: seq<Octet>, id: Octet) returns (r: Option<Element>)
    ensures r == First(Elements(ies), HasId(id))
  {
    var pos := 0;
    ghost var wanted := HasId(id);
    assert ies[0..] == ies;
    while pos + 1 < |ies|
      invariant 0 <= pos <= |ies|
      invariant First(Elements(ies[pos..]), wanted) == First(Elements(ies), wanted)
      decreases |ies| - pos
    {
      if pos + 2 + ies[pos + 1] > |ies| {
        break;
      }
      var e := NextElement(ies, pos);
      if ies[pos] == id {
        return Some(e);
      }
      pos := pos + 2 + ies[pos + 1];
    }
    return None;
  }

  method NextElement(ies: seq<Octet>, pos: nat) returns (e: Element)
    requires pos + 1 < |ies| && pos + 2 + ies[pos + 1] <= |ies|
    ensures e.id == ies[pos] && e.body == ies[pos + 2..pos + 2 + ies[pos + 1]]
    ensures Elements(ies[pos..]) == [e] + Elements(ies[pos + 2 + ies[pos + 1]..])
  {
    var n := ies[pos + 1];
    e := Element(ies[pos], ies[pos + 2..pos + 2 + n]);
    ghost var tail := ies[pos..];
    assert tail[0] == ies[pos] && tail[1] == n;
    assert tail[2..2 + n] == ies[pos + 2..pos + 2 + n] && tail[2 + n..] == ies[pos + 2 + n..];
  }

  /** wpa_scan_get_vendor_ie for the P2P vendor type */
  method ScanGetP2p(ies: seq<Octet>) returns (r: Option<Element>)
    ensures r == First(Elements(ies), IsP2p)
  {
    var pos := 0;
    assert ies[0..] == ies;
    while pos + 1 < |ies|
      invariant 0 <= pos <= |ies|
      invariant First(Elements(ies[pos..]), IsP2p) == First(Elements(ies), IsP2p)
      decreases |ies| - pos
    {
      if pos + 2 + ies[pos + 1] > |ies| {
        break;
      }
      var e := NextElement(ies, pos);
      if IsP2p(e) {
        return Some(e);
      }
      pos := pos + 2 + ies[pos + 1];
    }
    return None;
  }

  method AcceptedSsid(ies: seq<Octet>) returns (r: Option<seq<Octet>>)
    ensures r == Accepts(ies)
  {
    var e := ScanGetIe(ies, EID_SSID);
    if e == None || |e.value.body| > 32 {
      return None;
    }
    var p2p := ScanGetP2p(ies);
    if p2p.Some? && e.value.body == P2P_WILDCARD_SSID {
      return None;
    }
    return Some(e.value.body);
  }

  method IsKnown(env: Env, b: Bss) returns (r: bool)
    ensures r == Known(env, b)
  {
    var k := 0;
    while k < |env.networks|
      invariant 0 <= k <= |env.networks|
      invariant forall j :: 0 <= j < k ==> env.networks[j] == [] || env.networks[j] != b.ssid
    {
      if env.networks[k] != [] && env.networks[k] == b.ssid {
        return true;
      }
      k := k + 1;
    }
    return false;
  }

  method IncludedInScan(b: Bss, info: Option<ScanInfo>) returns (r: bool)
    ensures r == Covered(info, b)
  {
    if info == None {
      return true;
    }
    if info.value.freqs != [] {
      var i := 0;
      while i < |info.value.freqs| && info.value.freqs[i] != b.radio.freq
        invariant 0 <= i <= |info.value.freqs| && b.radio.freq !in info.value.freqs[..i]
      {
        i := i + 1;
      }
      if i == |info.value.freqs| {
        assert info.value.freqs[..i] == info.value.freqs;
        return false;
      }
    }
    if info.value.ssids != [] {
      var i := 0;
      while i < |info.value.ssids| && info.value.ssids[i] != [] && info.value.ssids[i] != b.ssid
        invariant 0 <= i <= |info.value.ssids| && [] !in info.value.ssids[..i] && b.ssid !in info.value.ssids[..i]
      {
        i := i + 1;
      }
      if i == |info.value.ssids| {
        assert info.value.ssids[..i] == info.value.ssids;
        return false;
      }
    }
    return true;
  }

  method IndexOf(order: seq<nat>, id: nat) returns (k: nat)
    requires id in order
    ensures k < |order| && order[k] == id
  {
    k := 0;
    while k < |order| && order[k] != id
      invariant k <= |order| && id !in order[..k]
    {
      k := k + 1;
    }
    assert order[..|order|] == order;
  }

  // ---- Adding, moving and changing one entry

  lemma AppendLinked(heap: map<nat, Bss>, updates: seq<nat>, ids: seq<nat>, b: Bss)
    requires Linked(heap, updates, ids) && forall i :: i in heap ==> i < b.id
    ensures Linked(heap[b.id := b], updates + [b.id], ids + [b.id])
    ensures Entries(heap[b.id := b], updates + [b.id]) == Entries(heap, updates) + [b]
  {
    PairwiseAppend(updates, b.id, Distinct);
    PairwiseAppend(ids, b.id, Less);
  }

  lemma MoveLinked(heap: map<nat, Bss>, updates: seq<nat>, ids: seq<nat>, b: Bss)
    requires Linked(heap, updates, ids) && b.id in heap
    ensures Linked(heap[b.id := b], Unlink(updates, b.id) + [b.id], ids)
    ensures Entries(heap[b.id := b], Unlink(updates, b.id) + [b.id]) == Without(Entries(heap, updates), b.id) + [b]
  {
    UnlinkLinked(heap, updates, ids, b.id);
    UnlinkEntries(heap, updates, b.id);
    UnlinkMembers(updates, b.id);
    PairwiseAppend(Unlink(updates, b.id), b.id, Distinct);
    EntriesSame(heap - {b.id}, heap[b.id := b], Unlink(updates, b.id));
  }

  lemma ChangeLinked(heap: map<nat, Bss>, updates: seq<nat>, ids: seq<nat>, k: nat, b: Bss)
    requires Linked(heap, updates, ids) && k < |updates| && updates[k] == b.id
    ensures Linked(heap[b.id := b], updates, ids)
    ensures Entries(heap[b.id := b], updates) == Entries(heap, updates)[k := b]
  {
    forall j | 0 <= j < |updates| && j != k ensures updates[j] != b.id {
      assert j < k ==> Distinct(updates[j], updates[k]);
      assert k < j ==> Distinct(updates[k], updates[j]);
    }
  }

  lemma CountKeepsInv(t: Table, k: nat, b: Bss)
    requires Inv(t) && k < |t.list| && SameEntry(t.list[k], b)
    ensures Inv(t.(list := t.list[k := b]))
  {
    var t' := t.(list := t.list[k := b]);
    forall x | x in t'.list ensures Proper(t', x) {
      var y := if x == b then t.list[k] else x;
      assert y in t.list && Proper(t, y);
    }
    CountKeepsPairwise(t.list, k, b, DistinctIds);
    CountKeepsPairwise(t.list, k, b, DistinctKeys);
    CountKeepsPairwise(t.list, k, b, ByUpdateIdx);
  }

  lemma CountKeepsPairwise(list: seq<Bss>, k: nat, b: Bss, r: (Bss, Bss) -> bool)
    requires k < |list| && SameEntry(list[k], b) && Pairwise(list, r) && IgnoresMissCount(r)
    ensures Pairwise(list[k := b], r)
  {
    var list' := list[k := b];
    forall i, j | 0 <= i < j < |list| ensures r(list'[i], list'[j]) {
      SameRelated(r, list[i], list[j], list'[i], list'[j]);
      assert r(list[i], list[j]);
    }
    assert Pairwise(list', r);
  }

  /** An entry that is not in the way is counted and passed over. */
  lemma ExpirePasses(list: seq<Bss>, k: nat, list': seq<Bss>, env: Env, info: Option<ScanInfo>, idx: nat)
    requires k < |list| && !Expired(env, info, idx, list[k]) && list' == list[k := Counted(env, info, idx, list[k])]
    ensures list'[..k + 1] + Expire(list'[k + 1..], env, info, idx) == list[..k] + Expire(list[k..], env, info, idx)
  {
    assert list[k..][0] == list[k] && list[k..][1..] == list[k + 1..] == list'[k + 1..];
    assert list'[..k + 1] == list[..k] + [Counted(env, info, idx, list[k])];
  }

  lemma ExpireDrops(list: seq<Bss>, k: nat, list': seq<Bss>, env: Env, info: Option<ScanInfo>, idx: nat)
    requires k < |list| && Expired(env, info, idx, list[k])
    requires var mid := list[k := Counted(env, info, idx, list[k])]; list' == mid[..k] + mid[k + 1..]
    ensures list'[..k] + Expire(list'[k..], env, info, idx) == list[..k] + Expire(list[k..], env, info, idx)
  {
    assert list[k..][0] == list[k] && list[k..][1..] == list[k + 1..] == list'[k..];
    assert list'[..k] == list[..k];
  }

  lemma KeepTurn(list: seq<Bss>, k: nat, p: Bss -> bool)
    requires k < |list|
    ensures p(list[k]) ==> list[..k + 1] + Keep(list[k + 1..], p) == list[..k] + Keep(list[k..], p)
    ensures !p(list[k]) ==>
      var list' := list[..k] + list[k + 1..]; list'[..k] + Keep(list'[k..], p) == list[..k] + Keep(list[k..], p)
  {
    assert list[k..][0] == list[k] && list[k..][1..] == list[k + 1..];
    assert list[..k + 1] == list[..k] + [list[k]];
    var list' := list[..k] + list[k + 1..];
    assert list'[..k] == list[..k] && list'[k..] == list[k + 1..];
  }

  lemma FlushTurn(list: seq<Bss>, k: nat, env: Env, t: Time)
    requires k < |list|
    ensures InUse(env, list[k]) ==>
      list[..k + 1] + FlushOld(list[k + 1..], env, t) == list[..k] + FlushOld(list[k..], env, t)
    ensures Old(env, t, list[k]) ==>
      var list' := list[..k] + list[k + 1..];
      list'[..k] + FlushOld(list'[k..], env, t) == list[..k] + FlushOld(list[k..], env, t)
    ensures !InUse(env, list[k]) && !Old(env, t, list[k]) ==> FlushOld(list[k..], env, t) == list[k..]
  {
    assert list[k..][0] == list[k] && list[k..][1..] == list[k + 1..];
    assert list[..k + 1] == list[..k] + [list[k]];
    var list' := list[..k] + list[k + 1..];
    assert list'[..k] == list[..k] && list'[k..] == list[k + 1..];
  }

  method StoreIes(b: Bss, res: ScanRes) returns (data: seq<Octet>, realloc: bool)
    requires b.Fits()
    ensures forall idx, now :: data == Refresh(b, idx, res, now).data
    ensures realloc <==> |res.Data()| > b.ieLen + b.beaconIeLen
  {
    var n := |res.ies| + |res.beaconIes|;
    if b.ieLen + b.beaconIeLen >= n {
      data, realloc := res.Data() + b.data[n..], false;
    } else {
      data, realloc := res.Data(), true;
    }
  }

  /** Take an entry off the id list and put it back behind the same neighbour. */
  method Reinsert(ids: seq<nat>, id: nat) returns (r: seq<nat>)
    requires id in ids
    ensures r == ids
  {
    var prev := IndexOf(ids, id);
    r := ids[..prev] + ids[prev + 1..];
    assert r[..prev] == ids[..prev] && r[prev..] == ids[prev + 1..];
    r := r[..prev] + [id] + r[prev..];
  }

  class BssTable {
    var heap: map<nat, Bss>
    var updates: seq<nat>
    var ids: seq<nat>
    var numBss: int
    var nextId: nat
    var updateIdx: nat

    ghost predicate Valid()
      reads this
    {
      Linked(heap, updates, ids) && numBss == |updates| && Inv(Model())
    }

    ghost function Model(): Table
      reads this
      requires Linked(heap, updates, ids)
    {
      Table(Entries(heap, updates), nextId, updateIdx)
    }

    /** wpa_bss_init */
    constructor ()
      ensures Valid() && Model() == Run([])
    {
      heap := map[];
      updates := [];
      ids := [];
      numBss := 0;
      nextId := 0;
      updateIdx := 0;
      new;
      RunInv([]);
    }

    // ---- Lookups

    method Get(bssid: Address, ssid: seq<Octet>) returns (r: Option<nat>)
      requires Valid()
      ensures var f := Find(Model().list, (bssid, ssid));
        (r == None <==> f == None) && (f.Some? ==> r == Some(f.value.id) && r.value in heap && heap[r.value] == f.value)
    {
      ghost var list := Model().list;
      ghost var wanted := HasKey((bssid, ssid));
      var k := 0;
      assert list[0..] == list;
      while k < |updates|
        invariant 0 <= k <= |updates|
        invariant First(list[k..], wanted) == First(list, wanted)
      {
        var b := heap[updates[k]];
        FirstFrom(list, k, wanted);
        if b.bssid == bssid && b.ssid == ssid {
          return Some(b.id);
        }
        k := k + 1;
      }
      return None;
    }

    /** The most recently updated entry with the address. */
    method GetBssid(bssid: Address) returns (r: Option<nat>)
      requires Valid()
      ensures r == None ==> forall b :: b in Model().list ==> b.bssid != bssid
      ensures r.Some? ==> r.value in heap && heap[r.value].bssid == bssid
      ensures r.Some? ==> forall b :: b in Model().list && b.bssid == bssid ==> b.lastUpdateIdx <= heap[r.value].lastUpdateIdx
    {
      ghost var list := Model().list;
      var k := |updates|;
      while k > 0
        invariant 0 <= k <= |updates|
        invariant forall j :: k <= j < |updates| ==> list[j].bssid != bssid
      {
        k := k - 1;
        var b := heap[updates[k]];
        if b.bssid == bssid {
          forall x | x in list && x.bssid == bssid ensures x.lastUpdateIdx <= b.lastUpdateIdx {
            var j :| 0 <= j < |list| && list[j] == x;
            assert j < k ==> ByUpdateIdx(list[j], list[k]);
          }
          return Some(b.id);
        }
      }
      return None;
    }

    method GetId(id: nat) returns (r: Option<nat>)
      requires Valid()
      ensures r == if id in heap then Some(id) else None
    {
      var k := 0;
      while k < |updates|
        invariant 0 <= k <= |updates|
        invariant forall j :: 0 <= j < k ==> updates[j] != id
      {
        if heap[updates[k]].id == id {
          return Some(id);
        }
        k := k + 1;
      }
      return None;
    }

    // ---- Removal

    method Remove(id: nat)
      requires Valid() && id in heap
      modifies this
      ensures Valid() && Model() == old(Model()).(list := Without(old(Model()).list, id))
      ensures updates == Unlink(old(updates), id)
    {
      UnlinkLinked(heap, updates, ids, id);
      UnlinkEntries(heap, updates, id);
      KeepInv(Model(), OtherThan(id));
      updates := Unlink(updates, id);
      ids := Unlink(ids, id);
      numBss := numBss - 1;
      heap := heap - {id};
    }

    method UpdateStart()
      requires Valid()
      modifies this
      ensures Valid() && Model() == Step(old(Model()), Start)
    {
      StepInv(Model(), Start);
      updateIdx := updateIdx + 1;
    }

    // ---- Sightings

    method FirstUnknown(env: Env) returns (r: Option<nat>)
      requires Valid()
      ensures var f := First(Model().list, Unknown(env));
        (r == None <==> f == None) && (f.Some? ==> r == Some(f.value.id) && r.value in heap)
    {
      ghost var list := Model().list;
      var k := 0;
      assert list[0..] == list;
      while k < |updates|
        invariant 0 <= k <= |updates|
        invariant First(list[k..], Unknown(env)) == First(list, Unknown(env))
      {
        var b := heap[updates[k]];
        FirstFrom(list, k, Unknown(env));
        var known := IsKnown(env, b);
        if !known {
          return Some(b.id);
        }
        k := k + 1;
      }
      return None;
    }

    method EvictOldest(env: Env)
      requires Valid() && updates != []
      modifies this
      ensures Valid() && Model() == old(Model()).(list := RemoveOldest(old(Model()).list, env))
    {
      var r := FirstUnknown(env);
      if r.Some? {
        Remove(r.value);
        return;
      }
      assert Model().list[0].id == updates[0];
      Remove(updates[0]);
    }

    /** Link a new entry at the end of both lists. */
    method Link(env: Env, b: Bss)
      requires Valid() && b.id == nextId && Inv(Table(Model().list + [b], nextId + 1, updateIdx))
      modifies this
      ensures Valid() && Model() == Table(old(Model()).list + [b], old(nextId) + 1, old(updateIdx))
    {
      forall i | i in heap ensures i < b.id {
        var k :| 0 <= k < |updates| && updates[k] == i;
        assert Proper(Model(), Model().list[k]);
      }
      AppendLinked(heap, updates, ids, b);
      nextId := nextId + 1;
      heap := heap[b.id := b];
      updates := updates + [b.id];
      ids := ids + [b.id];
      numBss := numBss + 1;
    }

    method Insert(env: Env, ssid: seq<Octet>, res: ScanRes, now: Time)
      requires Valid() && |ssid| <= 32 && Find(Model().list, (res.bssid, ssid)) == None
      modifies this
      ensures Valid() && Model() == Add(old(Model()), env, ssid, res, now)
    {
      ghost var roomy := env.(maxCount := |updates| + 1);
      AddInv(Model(), roomy, ssid, res, now);
      var b := Bss(nextId, 0, updateIdx, res.bssid, ssid, res.radio, Stamp(now, res.age),
                   res.Data(), |res.ies|, |res.beaconIes|);
      Link(env, b);
      if numBss > env.maxCount {
        EvictOldest(env);
      }
    }

    /** Store a changed entry and move it to the end of the update list. */
    method MoveToEnd(b: Bss)
      requires Valid() && b.id in heap
      requires Inv(Model().(list := Without(Model().list, b.id) + [b]))
      modifies this
      ensures Valid() && Model() == old(Model()).(list := Without(old(Model()).list, b.id) + [b]) && ids == old(ids)
    {
      MoveLinked(heap, updates, ids, b);
      UnlinkLinked(heap, updates, ids, b.id);
      heap := heap[b.id := b];
      updates := Unlink(updates, b.id);
      updates := updates + [b.id];
    }

    method Renew(id: nat, res: ScanRes, now: Time)
      requires Valid() && id in heap && heap[id].bssid == res.bssid
      modifies this
      ensures Valid() && Model() == Update(old(Model()), old(heap[id]), res, now) && ids == old(ids)
    {
      var b := heap[id];
      ghost var k :| 0 <= k < |updates| && updates[k] == id;
      assert Model().list[k] == b && Proper(Model(), b);
      UpdateInv(Model(), b, res, now);
      var data, realloc := StoreIes(b, res);
      if realloc {
        ids := Reinsert(ids, id);
      }
      MoveToEnd(b.(missCount := 0, lastUpdateIdx := updateIdx, bssid := res.bssid, radio := res.radio,
                   lastUpdate := Stamp(now, res.age), data := data,
                   ieLen := |res.ies|, beaconIeLen := |res.beaconIes|));
    }

    method UpdateScanRes(env: Env, now: Time, res: ScanRes)
      requires Valid()
      modifies this
      ensures Valid() && Model() == Step(old(Model()), Result(env, now, res))
      ensures PresentAfter(old(Model()), Result(env, now, res), Model().list)
    {
      ResultPresence(Model(), Result(env, now, res));
      var ssid := AcceptedSsid(res.ies);
      if ssid == None {
        return;
      }
      var r := Get(res.bssid, ssid.value);
      if r == None {
        Insert(env, ssid.value, res, now);
      } else {
        FindIs(Model().list, (res.bssid, ssid.value));
        Renew(r.value, res, now);
      }
    }

    // ---- Expiry and flushing

    /** Remove the entry at a position of the update list. */
    method RemoveAt(k: nat)
      requires Valid() && k < |updates|
      modifies this
      ensures Valid() && |updates| == old(|updates|) - 1 && nextId == old(nextId) && updateIdx == old(updateIdx)
      ensures Model().list == old(Model()).list[..k] + old(Model()).list[k + 1..]
    {
      WithoutOne(Model().list, k);
      Remove(updates[k]);
    }

    method CountMiss(k: nat)
      requires Valid() && k < |updates|
      modifies this
      ensures Valid() && |updates| == old(|updates|) && nextId == old(nextId) && updateIdx == old(updateIdx)
      ensures var b := old(Model()).list[k]; Model().list == old(Model()).list[k := b.(missCount := b.missCount + 1)]
    {
      var b := heap[updates[k]];
      var b' := b.(missCount := b.missCount + 1);
      ChangeLinked(heap, updates, ids, k, b');
      CountKeepsInv(Model(), k, b');
      heap := heap[b.id := b'];
    }

    method UpdateEnd(env: Env, info: Option<ScanInfo>, newScan: bool)
      requires Valid()
      modifies this
      ensures Valid() && Model() == Step(old(Model()), End(env, info, newScan))
    {
      if !newScan {
        return;
      }
      ghost var list := Model().list;
      ghost var all := Expire(list, env, info, updateIdx);
      var k := 0;
      while k < |updates|
        invariant Valid() && 0 <= k <= |updates| && nextId == old(nextId) && updateIdx == old(updateIdx)
        invariant Model().list[..k] + Expire(Model().list[k..], env, info, updateIdx) == all
        decreases |updates| - k
      {
        k := ExpireAt(k, env, info, all);
      }
      assert Model().list[..k] == Model().list;
    }

    /** One turn of the loop: the entry at position k stays, is counted, or goes. */
    method ExpireAt(k: nat, env: Env, info: Option<ScanInfo>, ghost all: seq<Bss>) returns (k': nat)
      requires Valid() && k < |updates|
      requires Model().list[..k] + Expire(Model().list[k..], env, info, updateIdx) == all
      modifies this
      ensures Valid() && k' <= |updates| && |updates| - k' < old(|updates|) - k
      ensures nextId == old(nextId) && updateIdx == old(updateIdx)
      ensures Model().list[..k'] + Expire(Model().list[k'..], env, info, updateIdx) == all
    {
      var b := heap[updates[k]];
      var included := IncludedInScan(b, info);
      if InUse(env, b) || !included {
        assert Model().list[k := b] == Model().list;
        ExpirePasses(Model().list, k, Model().list, env, info, updateIdx);
        return k + 1;
      }
      k' := ExpireExamined(k, env, info, all);
    }

    method ExpireExamined(k: nat, env: Env, info: Option<ScanInfo>, ghost all: seq<Bss>) returns (k': nat)
      requires Valid() && k < |updates| && Examined(env, info, Model().list[k])
      requires Model().list[..k] + Expire(Model().list[k..], env, info, updateIdx) == all
      modifies this
      ensures Valid() && k' <= |updates| && |updates| - k' < old(|updates|) - k
      ensures nextId == old(nextId) && updateIdx == old(updateIdx)
      ensures Model().list[..k'] + Expire(Model().list[k'..], env, info, updateIdx) == all
    {
      ghost var list := Model().list;
      CountIfMissed(k, env, info);
      k' := DropAt(k, env);
      if Expired(env, info, updateIdx, list[k]) {
        ExpireDrops(list, k, Model().list, env, info, updateIdx);
      } else {
        ExpirePasses(list, k, Model().list, env, info, updateIdx);
      }
    }

    method CountIfMissed(k: nat, ghost env: Env, ghost info: Option<ScanInfo>)
      requires Valid() && k < |updates| && Examined(env, info, Model().list[k])
      modifies this
      ensures Valid() && |updates| == old(|updates|) && nextId == old(nextId) && updateIdx == old(updateIdx)
      ensures Model().list == old(Model()).list[k := Counted(env, info, updateIdx, old(Model()).list[k])]
    {
      if heap[updates[k]].lastUpdateIdx < updateIdx {
        CountMiss(k);
      }
    }

    /** Remove the entry at position k if its count has reached the limit. */
    method DropAt(k: nat, env: Env) returns (k': nat)
      requires Valid() && k < |updates|
      modifies this
      ensures Valid() && nextId == old(nextId) && updateIdx == old(updateIdx)
      ensures var list := old(Model()).list;
        if list[k].missCount >= env.expirationScanCount
        then k' == k && |updates| == old(|updates|) - 1 && Model().list == list[..k] + list[k + 1..]
        else k' == k + 1 && |updates| == old(|updates|) && Model().list == list
    {
      if heap[updates[k]].missCount >= env.expirationScanCount {
        RemoveAt(k);
        return k;
      }
      return k + 1;
    }

    method FlushAll(env: Env)
      requires Valid()
      modifies this
      ensures Valid() && Model() == Step(old(Model()), Flush(env))
    {
      ghost var all := Keep(Model().list, UsedIn(env));
      var k := 0;
      assert Model().list[0..] == Model().list;
      while k < |updates|
        invariant Valid() && 0 <= k <= |updates| && nextId == old(nextId) && updateIdx == old(updateIdx)
        invariant Model().list[..k] + Keep(Model().list[k..], UsedIn(env)) == all
        decreases |updates| - k
      {
        k := KeepUsedAt(k, env, all);
      }
      assert Model().list[..k] == Model().list;
    }

    method KeepUsedAt(k: nat, env: Env, ghost all: seq<Bss>) returns (k': nat)
      requires Valid() && k < |updates|
      requires Model().list[..k] + Keep(Model().list[k..], UsedIn(env)) == all
      modifies this
      ensures Valid() && k' <= |updates| && |updates| - k' < old(|updates|) - k
      ensures nextId == old(nextId) && updateIdx == old(updateIdx)
      ensures Model().list[..k'] + Keep(Model().list[k'..], UsedIn(env)) == all
    {
      KeepTurn(Model().list, k, UsedIn(env));
      if InUse(env, heap[updates[k]]) {
        return k + 1;
      }
      RemoveAt(k);
      return k;
    }

    method FlushOlderThan(env: Env, now: Time, age: int)
      requires Valid()
      modifies this
      ensures Valid() && Model() == Step(old(Model()), FlushByAge(env, now, age))
    {
      if updates == [] {
        return;
      }
      FlushFrom(env, now.(sec := now.sec - age));
    }

    method FlushFrom(env: Env, t: Time)
      requires Valid()
      modifies this
      ensures Valid() && Model() == old(Model()).(list := FlushOld(old(Model()).list, env, t))
    {
      ghost var all := FlushOld(Model().list, env, t);
      var k, stop := 0, false;
      assert Model().list[0..] == Model().list;
      while k < |updates| && !stop
        invariant Valid() && 0 <= k <= |updates| && nextId == old(nextId) && updateIdx == old(updateIdx)
        invariant if stop then Model().list == all else Model().list[..k] + FlushOld(Model().list[k..], env, t) == all
        decreases |updates| - k, !stop
      {
        k, stop := FlushAt(k, env, t, all);
      }
      assert k == |updates| ==> Model().list[..k] == Model().list;
    }

    method FlushAt(k: nat, env: Env, t: Time, ghost all: seq<Bss>) returns (k': nat, stop: bool)
      requires Valid() && k < |updates|
      requires Model().list[..k] + FlushOld(Model().list[k..], env, t) == all
      modifies this
      ensures Valid() && k' <= |updates| && nextId == old(nextId) && updateIdx == old(updateIdx)
      ensures if stop then k' == k && updates == old(updates) && Model().list == all
        else |updates| - k' < old(|updates|) - k && Model().list[..k'] + FlushOld(Model().list[k'..], env, t) == all
    {
      var b := heap[updates[k]];
      FlushTurn(Model().list, k, env, t);
      if InUse(env, b) {
        return k + 1, false;
      }
      if Before(b.lastUpdate, t) {
        RemoveAt(k);
        return k, false;
      }
      assert Model().list[..k] + Model().list[k..] == Model().list;
      return k, true;
    }
  }
}
