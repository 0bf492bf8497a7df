/** The entries of the BSS table told from the history of the run: sightings, misses, eviction and age. */
module BssHistory {
  import opened Lists
  import opened Wrappers
  import opened OctetNumbers
  import opened BssModel
  import opened BssRuns

  // ---- Sightings and misses

  /** The event reports the BSS in a result that the table accepts. */
  predicate Sees(e: Event, key: (Address, seq<Octet>)) {
    e.Result? && e.res.bssid == key.0 && Accepts(e.res.ies) == Some(key.1)
  }

  /** A new scan that covers the entry ends while the entry is not in use. */
  predicate Examines(e: Event, b: Bss) {
    e.End? && e.newScan && Examined(e.env, e.info, b)
  }

  ghost predicate LastSighting(es: seq<Event>, b: Bss, l: nat) {
    l < |es| && Sees(es[l], b.Key()) && forall k :: l < k < |es| ==> !Sees(es[k], b.Key())
  }

  /** An update round was started after event l. */
  ghost predicate StartedSince(es: seq<Event>, l: nat, p: nat) {
    exists q :: l < q < p && q < |es| && es[q].Start?
  }

  /** The events at which the entry was looked for and not seen since event l. */
  ghost function Misses(es: seq<Event>, b: Bss, l: nat): set<nat> {
    set p: nat | l < p < |es| && Examines(es[p], b) && StartedSince(es, l, p)
  }

  predicate MissedBy(e: Event, idx: nat, b: Bss) {
    Examines(e, b) && b.lastUpdateIdx < idx
  }

  /** The entry holds what the result reported: radio parameters, time, and both sets of elements. */
  predicate Stores(b: Bss, e: Event)
    requires e.Result?
  {
    && b.radio == e.res.radio && b.lastUpdate == Stamp(e.now, e.res.age)
    && b.Fits() && b.Ies() == e.res.ies && b.BeaconIes() == e.res.beaconIes
  }

  lemma FreshStores(t: Table, ssid: seq<Octet>, e: Event)
    requires e.Result?
    ensures Stores(Fresh(t, ssid, e.res, e.now), e)
  {
  }

  /** Whether or not the allocation is reused. */
  lemma RefreshStores(b: Bss, idx: nat, e: Event)
    requires e.Result? && b.Fits()
    ensures Stores(Refresh(b, idx, e.res, e.now), e)
  {
    var r, d := Refresh(b, idx, e.res, e.now), e.res.Data();
    assert r.data[..|d|] == d;
    assert r.data[..|d|][..r.ieLen] == r.Ies();
    assert r.data[..|d|][r.ieLen..] == r.BeaconIes();
  }

  /** Where an entry of the next table comes from: a sighting, or an entry of this table. */
  ghost predicate Origin(t: Table, e: Event, b: Bss) {
    if Sees(e, b.Key()) then
      b.missCount == 0 && b.lastUpdateIdx == t.updateIdx && Stores(b, e)
    else
      exists a :: a in t.list && SameEntry(a, b)
        && b.missCount == a.missCount + if MissedBy(e, t.updateIdx, a) then 1 else 0
  }

  lemma OriginOfSame(t: Table, e: Event, b: Bss)
    requires b in t.list && !Sees(e, b.Key()) && !e.End?
    ensures Origin(t, e, b)
  {
    assert SameEntry(b, b);
  }

  lemma SightOrigin(t: Table, e: Event, b: Bss)
    requires Inv(t) && e.Result? && b in Step(t, e).list
    ensures Origin(t, e, b)
  {
    match Accepts(e.res.ies)
    case None => OriginOfSame(t, e, b);
    case Some(ssid) =>
      FindIs(t.list, (e.res.bssid, ssid));
      match Find(t.list, (e.res.bssid, ssid))
      case None =>
        FirstNone(t.list, HasKey((e.res.bssid, ssid)));
        FreshStores(t, ssid, e);
        var list := t.list + [Fresh(t, ssid, e.res, e.now)];
        KeepMembers(list, OtherThan(Victim(list, e.env).id), b);
        if b in t.list {
          OriginOfSame(t, e, b);
        }
      case Some(a) =>
        KeepMembers(t.list, OtherThan(a.id), b);
        assert Proper(t, a);
        RefreshStores(a, t.updateIdx, e);
        if b != Refresh(a, t.updateIdx, e.res, e.now) {
          OthersDiffer(t.list, a, b);
          OriginOfSame(t, e, b);
        }
  }

  lemma StepOrigin(t: Table, e: Event, b: Bss)
    requires Inv(t) && b in Step(t, e).list
    ensures Origin(t, e, b)
  {
    match e
    case Start => OriginOfSame(t, e, b);
    case Result(_, _, _) => SightOrigin(t, e, b);
    case End(env, info, newScan) =>
      if newScan {
        ExpireMembers(t.list, env, info, t.updateIdx, b);
        var a :| a in t.list && b == Counted(env, info, t.updateIdx, a);
        assert SameEntry(a, b);
      } else {
        assert SameEntry(b, b);
      }
    case FlushByAge(env, now, age) =>
      FlushOldMembers(t.list, env, now.(sec := now.sec - age), b);
      OriginOfSame(t, e, b);
    case Flush(env) =>
      KeepMembers(t.list, UsedIn(env), b);
      OriginOfSame(t, e, b);
  }

  /** The fields of an entry, as the history since event l determines them. */
  ghost predicate Told(es: seq<Event>, idx: nat, b: Bss, l: nat) {
    && LastSighting(es, b, l)
    && b.missCount == |Misses(es, b, l)|
    && (b.lastUpdateIdx < idx <==> StartedSince(es, l, |es|))
    && Stores(b, es[l])
  }

  lemma MissesGrow(es: seq<Event>, e: Event, a: Bss, b: Bss, l: nat)
    requires l < |es| && SameEntry(a, b)
    ensures Misses(es + [e], b, l) ==
      Misses(es, a, l) + if Examines(e, a) && StartedSince(es, l, |es|) then {|es|} else {}
    ensures |es| !in Misses(es, a, l)
  {
    var fs := es + [e];
    forall p: nat | p <= |es| ensures StartedSince(fs, l, p) == StartedSince(es, l, p) {
      StartedPrefix(es, e, l, p);
    }
  }

  lemma StartedPrefix(es: seq<Event>, e: Event, l: nat, p: nat)
    requires p <= |es|
    ensures StartedSince(es + [e], l, p) <==> StartedSince(es, l, p)
  {
    var fs := es + [e];
    if StartedSince(es, l, p) {
      var q :| l < q < p && q < |es| && es[q].Start?;
      assert fs[q].Start?;
    }
    if StartedSince(fs, l, p) {
      var q :| l < q < p && q < |fs| && fs[q].Start?;
      assert es[q].Start?;
    }
  }

  lemma StartedGrows(es: seq<Event>, e: Event, l: nat)
    requires l < |es|
    ensures StartedSince(es + [e], l, |es| + 1) <==> StartedSince(es, l, |es|) || e.Start?
  {
    StartedPrefix(es, e, l, |es|);
    var fs := es + [e];
    assert fs[|es|] == e;
    if StartedSince(es, l, |es|) {
      assert StartedSince(fs, l, |es|);
    }
  }

  lemma ToldNext(es: seq<Event>, t: Table, e: Event, a: Bss, b: Bss, l: nat)
    requires Told(es, t.updateIdx, a, l) && SameEntry(a, b) && !Sees(e, b.Key()) && Proper(t, a)
    requires b.missCount == a.missCount + if MissedBy(e, t.updateIdx, a) then 1 else 0
    ensures Told(es + [e], Step(t, e).updateIdx, b, l)
  {
    var fs := es + [e];
    MissesGrow(es, e, a, b, l);
    StartedGrows(es, e, l);
    assert fs[l] == es[l];
    StepIdx(t, e);
  }

  lemma StepIdx(t: Table, e: Event)
    ensures Step(t, e).updateIdx == t.updateIdx + if e.Start? then 1 else 0
  {
  }

  lemma ToldFirst(es: seq<Event>, t: Table, e: Event, b: Bss)
    requires Origin(t, e, b) && Sees(e, b.Key())
    ensures Told(es + [e], Step(t, e).updateIdx, b, |es|)
  {
    var fs := es + [e];
    assert fs[|es|] == e;
    assert Misses(fs, b, |es|) == {};
    assert !StartedSince(fs, |es|, |fs|);
    StepIdx(t, e);
  }

  /**
   After any run, the miss count of every entry is the number of new scans that covered it while it was
   not in use and did not see it, since its last sighting; its contents and its age are those of that sighting.
   */
  lemma {:induction false} MissCountIsHistory(es: seq<Event>, b: Bss) returns (l: nat)
    requires b in Run(es).list
    ensures Told(es, Run(es).updateIdx, b, l)
    decreases |es|
  {
    var init, e := es[..|es| - 1], es[|es| - 1];
    var t := Run(init);
    assert es == init + [e];
    RunInv(init);
    StepOrigin(t, e, b);
    if Sees(e, b.Key()) {
      ToldFirst(init, t, e, b);
      l := |init|;
    } else {
      var a :| a in t.list && SameEntry(a, b)
        && b.missCount == a.missCount + if MissedBy(e, t.updateIdx, a) then 1 else 0;
      l := MissCountIsHistory(init, a);
      ToldNext(init, t, e, a, b, l);
    }
  }

  // ---- Expiry

  ghost predicate FixedLimit(es: seq<Event>, limit: nat) {
    forall k :: 0 <= k < |es| && es[k].End? ==> es[k].env.expirationScanCount == limit
  }

  lemma {:induction false} CountsBelowLimit(es: seq<Event>, limit: nat, b: Bss)
    requires limit > 0 && FixedLimit(es, limit) && b in Run(es).list
    ensures b.missCount < limit
    decreases |es|
  {
    var init, e := es[..|es| - 1], es[|es| - 1];
    var t := Run(init);
    RunInv(init);
    if e.End? && e.newScan {
      ExpireMembers(t.list, e.env, e.info, t.updateIdx, b);
      var a :| a in t.list && !Expired(e.env, e.info, t.updateIdx, a) && b == Counted(e.env, e.info, t.updateIdx, a);
      CountsBelowLimit(init, limit, a);
    } else {
      StepOrigin(t, e, b);
      if !Sees(e, b.Key()) {
        var a :| a in t.list && SameEntry(a, b) && b.missCount == a.missCount;
        CountsBelowLimit(init, limit, a);
      }
    }
  }

  predicate Present(list: seq<Bss>, id: nat) {
    exists k :: 0 <= k < |list| && list[k].id == id
  }

  lemma SameId(list: seq<Bss>, a: Bss, b: Bss)
    requires Pairwise(list, DistinctIds) && a in list && b in list && a.id == b.id
    ensures a == b
  {
    var i, j :| 0 <= i < |list| && 0 <= j < |list| && list[i] == a && list[j] == b;
    assert !(i < j) && !(j < i);
  }

  lemma ExpireRemoves(t: Table, env: Env, info: Option<ScanInfo>, b: Bss)
    requires Inv(t) && b in t.list
    ensures Present(Expire(t.list, env, info, t.updateIdx), b.id) <==> !Expired(env, info, t.updateIdx, b)
  {
    var list, c := Expire(t.list, env, info, t.updateIdx), Counted(env, info, t.updateIdx, b);
    if !Expired(env, info, t.updateIdx, b) {
      ExpireMembers(t.list, env, info, t.updateIdx, c);
      var k :| 0 <= k < |list| && list[k] == c;
      assert list[k].id == b.id;
    }
    if Present(list, b.id) {
      var k :| 0 <= k < |list| && list[k].id == b.id;
      ExpireMembers(t.list, env, info, t.updateIdx, list[k]);
      var a :| a in t.list && !Expired(env, info, t.updateIdx, a) && list[k] == Counted(env, info, t.updateIdx, a);
      SameId(t.list, a, b);
    }
  }

  /**
   With a fixed positive limit, the end of an update removes exactly the entries whose number of misses
   since their last sighting has now reached the limit.
   */
  lemma ExpiryIsExact(es: seq<Event>, e: Event, limit: nat, b: Bss, l: nat)
    requires limit > 0 && FixedLimit(es, limit) && e.End? && e.env.expirationScanCount == limit
    requires b in Run(es).list && LastSighting(es, b, l)
    ensures !Present(Run(es + [e]).list, b.id) <==> |Misses(es + [e], b, l)| >= limit
  {
    var t := Run(es);
    RunInv(es);
    RunLast(es, e);
    var l' := MissCountIsHistory(es, b);
    assert l == l';
    MissesGrow(es, e, b, b, l);
    CountsBelowLimit(es, limit, b);
    if e.newScan {
      ExpireRemoves(t, e.env, e.info, b);
    } else {
      var k :| 0 <= k < |t.list| && t.list[k] == b;
      assert t.list[k].id == b.id;
    }
  }

  lemma RunLast(es: seq<Event>, e: Event)
    ensures Run(es + [e]) == Step(Run(es), e)
  {
    assert (es + [e])[..|es|] == es;
  }

  // ---- Capacity

  lemma WithoutOne(list: seq<Bss>, k: nat)
    requires Pairwise(list, DistinctIds) && k < |list|
    ensures Without(list, list[k].id) == list[..k] + list[k + 1..]
  {
    forall j | 0 <= j < |list| && j != k ensures OtherThan(list[k].id)(list[j]) {
      assert j < k ==> DistinctIds(list[j], list[k]);
      assert k < j ==> DistinctIds(list[k], list[j]);
    }
    KeepButOne(list, k, OtherThan(list[k].id));
  }

  /**
   Eviction takes out one position: the least recently updated entry that matches no configured network,
   or the least recently updated of all if every entry matches one.
   */
  lemma EvictsOldest(t: Table, env: Env) returns (k: nat)
    requires Inv(t) && t.list != []
    ensures k < |t.list| && RemoveOldest(t.list, env) == t.list[..k] + t.list[k + 1..]
    ensures forall j :: 0 <= j < k ==> Known(env, t.list[j])
    ensures Known(env, t.list[k]) ==> k == 0 && forall b :: b in t.list ==> Known(env, b)
    ensures forall b :: b in t.list && (Known(env, b) ==> Known(env, t.list[k])) ==>
      t.list[k].lastUpdateIdx <= b.lastUpdateIdx
  {
    var list := t.list;
    k := VictimPosition(list, env);
    WithoutOne(list, k);
    forall b | b in list && (Known(env, b) ==> Known(env, list[k])) ensures list[k].lastUpdateIdx <= b.lastUpdateIdx {
      var j :| 0 <= j < |list| && list[j] == b;
      assert k < j ==> ByUpdateIdx(list[k], list[j]);
    }
  }

  lemma VictimPosition(list: seq<Bss>, env: Env) returns (k: nat)
    requires list != []
    ensures k < |list| && list[k] == Victim(list, env)
    ensures forall j :: 0 <= j < k ==> Known(env, list[j])
    ensures Known(env, list[k]) ==> k == 0 && forall b :: b in list ==> Known(env, b)
  {
    if First(list, Unknown(env)).Some? {
      k := FirstSome(list, Unknown(env));
    } else {
      FirstNone(list, Unknown(env));
      k := 0;
    }
  }

  lemma AddSize(t: Table, env: Env, ssid: seq<Octet>, res: ScanRes, now: Time)
    requires Inv(t) && |ssid| <= 32 && Find(t.list, (res.bssid, ssid)) == None
    ensures |Add(t, env, ssid, res, now).list| == if |t.list| + 1 > env.maxCount then |t.list| else |t.list| + 1
  {
    var roomy := env.(maxCount := |t.list| + 1);
    AddInv(t, roomy, ssid, res, now);
    var k := EvictsOldest(Add(t, roomy, ssid, res, now), env);
  }

  /** A step never takes the table above the limit, nor a table already above it any higher. */
  lemma StepSize(t: Table, e: Event)
    requires Inv(t)
    ensures |Step(t, e).list| <= |t.list| || (e.Result? && |Step(t, e).list| <= e.env.maxCount)
  {
    match e
    case Result(env, now, res) =>
      match Accepts(res.ies) {
        case None =>
        case Some(ssid) =>
          FindIs(t.list, (res.bssid, ssid));
          match Find(t.list, (res.bssid, ssid))
          case None => AddSize(t, env, ssid, res, now);
          case Some(b) =>
            var k :| 0 <= k < |t.list| && t.list[k] == b;
            WithoutOne(t.list, k);
      }
    case Start =>
    case End(_, _, _) =>
    case FlushByAge(_, _, _) =>
    case Flush(_) =>
  }

  lemma {:induction false} RunWithinLimit(es: seq<Event>, max: nat)
    requires forall k :: 0 <= k < |es| && es[k].Result? ==> es[k].env.maxCount <= max
    ensures |Run(es).list| <= max
  {
    if es != [] {
      RunInv(es[..|es| - 1]);
      RunWithinLimit(es[..|es| - 1], max);
      StepSize(Run(es[..|es| - 1]), es[|es| - 1]);
    }
  }

  // ---- Age

  predicate ByTime(a: Bss, b: Bss) { !Before(b.lastUpdate, a.lastUpdate) }

  function Young(env: Env, t: Time): Bss -> bool {
    (b: Bss) => !Old(env, t, b)
  }

  /** No old entry hides behind the fresh entry at which the walk stops. */
  function NotHidden(env: Env, t: Time): (Bss, Bss) -> bool {
    (a: Bss, b: Bss) => !InUse(env, a) && !Before(a.lastUpdate, t) ==> !Old(env, t, b)
  }

  /** Entries in use and fresh entries stay, whatever the order of the list. */
  lemma {:induction false} FlushOldSpares(list: seq<Bss>, env: Env, t: Time, b: Bss)
    requires b in list && !Old(env, t, b)
    ensures b in FlushOld(list, env, t)
  {
    if b != list[0] {
      FlushOldSpares(list[1..], env, t, b);
    }
  }

  /** Stopping early removes what a full scan removes exactly if no old entry is hidden. */
  lemma {:induction false} FlushOldIsFullScan(list: seq<Bss>, env: Env, t: Time)
    ensures FlushOld(list, env, t) == Keep(list, Young(env, t)) <==> Pairwise(list, NotHidden(env, t))
  {
    if list != [] {
      var b, rest := list[0], list[1..];
      FlushOldIsFullScan(rest, env, t);
      if InUse(env, b) || Before(b.lastUpdate, t) {
        assert forall x :: NotHidden(env, t)(b, x);
        PairwiseRest(list, NotHidden(env, t));
        assert InUse(env, b) ==> FlushOld(list, env, t)[1..] == FlushOld(rest, env, t);
        assert InUse(env, b) ==> Keep(list, Young(env, t))[1..] == Keep(rest, Young(env, t));
      } else {
        FlushStops(list, env, t);
      }
    }
  }

  lemma PairwiseRest(list: seq<Bss>, r: (Bss, Bss) -> bool)
    requires list != [] && forall x :: x in list[1..] ==> r(list[0], x)
    ensures Pairwise(list, r) <==> Pairwise(list[1..], r)
  {
    var rest := list[1..];
    assert list == [list[0]] + rest;
    if Pairwise(rest, r) {
      PairwiseCons(list[0], rest, r);
    }
    if Pairwise(list, r) {
      forall i, j | 0 <= i < j < |rest| ensures r(rest[i], rest[j]) {
        assert rest[i] == list[i + 1] && rest[j] == list[j + 1];
      }
    }
  }

  lemma FlushStops(list: seq<Bss>, env: Env, t: Time)
    requires list != [] && !InUse(env, list[0]) && !Before(list[0].lastUpdate, t)
    ensures list == Keep(list, Young(env, t)) <==> Pairwise(list, NotHidden(env, t))
  {
    if Pairwise(list, NotHidden(env, t)) {
      forall x | x in list ensures Young(env, t)(x) {
        var k :| 0 <= k < |list| && list[k] == x;
        assert k > 0 ==> NotHidden(env, t)(list[0], list[k]);
      }
      KeepAll(list, Young(env, t));
    }
    if list == Keep(list, Young(env, t)) {
      forall i, j | 0 <= i < j < |list| ensures NotHidden(env, t)(list[i], list[j]) {
        KeepMembers(list, Young(env, t), list[j]);
      }
    }
  }

  lemma OrderHidesNothing(list: seq<Bss>, env: Env, t: Time)
    requires Pairwise(list, ByTime)
    ensures Pairwise(list, NotHidden(env, t))
  {
    forall i, j | 0 <= i < j < |list| ensures NotHidden(env, t)(list[i], list[j]) {
      assert ByTime(list[i], list[j]);
    }
  }

  predicate Accepted(e: Event) {
    e.Result? && Accepts(e.res.ies).Some?
  }

  /** Clock readings are normalised and the results arrive in the order of their own times. */
  ghost predicate InOrder(es: seq<Event>) {
    && (forall k :: 0 <= k < |es| && es[k].Result? ==> Normal(es[k].now))
    && forall i, j :: 0 <= i < j < |es| && Accepted(es[i]) && Accepted(es[j]) ==>
        Micros(es[i].now) - 1000 * es[i].res.age <= Micros(es[j].now) - 1000 * es[j].res.age
  }

  lemma NewestStamp(es: seq<Event>, e: Event, b: Bss)
    requires InOrder(es + [e]) && Accepted(e) && b in Run(es).list
    ensures !Before(Stamp(e.now, e.res.age), b.lastUpdate)
  {
    var l := MissCountIsHistory(es, b);
    var fs := es + [e];
    assert fs[l] == es[l] && fs[|es|] == e;
    StampIsDifference(es[l].now, es[l].res.age);
    StampIsDifference(e.now, e.res.age);
    BeforeIsLess(Stamp(e.now, e.res.age), b.lastUpdate);
  }

  lemma SightOrder(es: seq<Event>, e: Event)
    requires InOrder(es + [e]) && e.Result? && Pairwise(Run(es).list, ByTime)
    ensures Pairwise(Step(Run(es), e).list, ByTime)
  {
    var t := Run(es);
    match Accepts(e.res.ies)
    case None =>
    case Some(ssid) =>
      forall b | b in t.list ensures !Before(Stamp(e.now, e.res.age), b.lastUpdate) {
        NewestStamp(es, e, b);
      }
      match Find(t.list, (e.res.bssid, ssid))
      case None =>
        var list := t.list + [Fresh(t, ssid, e.res, e.now)];
        PairwiseAppend(t.list, Fresh(t, ssid, e.res, e.now), ByTime);
        KeepPairwise(list, OtherThan(Victim(list, e.env).id), ByTime);
      case Some(a) =>
        var list := Without(t.list, a.id);
        KeepPairwise(t.list, OtherThan(a.id), ByTime);
        forall b | b in list ensures ByTime(b, Refresh(a, t.updateIdx, e.res, e.now)) {
          KeepMembers(t.list, OtherThan(a.id), b);
        }
        PairwiseAppend(list, Refresh(a, t.updateIdx, e.res, e.now), ByTime);
  }

  lemma {:induction false} RunInTimeOrder(es: seq<Event>)
    requires InOrder(es)
    ensures Pairwise(Run(es).list, ByTime)
  {
    if es != [] {
      var init, e := es[..|es| - 1], es[|es| - 1];
      var t := Run(init);
      assert es == init + [e];
      RunInTimeOrder(init);
      match e
      case Start =>
      case Result(_, _, _) => SightOrder(init, e);
      case End(env, info, _) => ExpirePairwise(t.list, env, info, t.updateIdx, ByTime);
      case FlushByAge(env, now, age) => FlushOldPairwise(t.list, env, now.(sec := now.sec - age), ByTime);
      case Flush(env) => KeepPairwise(t.list, UsedIn(env), ByTime);
    }
  }

  lemma FlushOrdered(list: seq<Bss>, env: Env, t: Time)
    requires Pairwise(list, ByTime)
    ensures FlushOld(list, env, t) == Keep(list, Young(env, t))
  {
    OrderHidesNothing(list, env, t);
    FlushOldIsFullScan(list, env, t);
  }

  /** In every run whose results arrive in order, flushing by age is a full scan. */
  lemma FlushByAgeInRun(es: seq<Event>, e: Event)
    requires InOrder(es) && e.FlushByAge?
    ensures Run(es + [e]).list == Keep(Run(es).list, Young(e.env, e.now.(sec := e.now.sec - e.age)))
  {
    RunLast(es, e);
    RunInTimeOrder(es);
    FlushOrdered(Run(es).list, e.env, e.now.(sec := e.now.sec - e.age));
  }
}
