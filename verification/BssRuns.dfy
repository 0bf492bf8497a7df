/** What every run of the BSS table keeps. */
module BssRuns {
  import opened Lists
  import opened Wrappers
  import opened OctetNumbers
  import opened BssModel

  // ---- The structure

  predicate DistinctIds(a: Bss, b: Bss) { a.id != b.id }
  predicate DistinctKeys(a: Bss, b: Bss) { a.Key() != b.Key() }
  predicate ByUpdateIdx(a: Bss, b: Bss) { a.lastUpdateIdx <= b.lastUpdateIdx }

  /** Each entry by itself: an id already given out, a past update, and elements inside the allocation. */
  predicate Proper(t: Table, b: Bss) {
    b.id < t.nextId && b.lastUpdateIdx <= t.updateIdx && b.Fits() && |b.ssid| <= 32
  }

  ghost predicate Inv(t: Table) {
    && Pairwise(t.list, DistinctIds)
    && Pairwise(t.list, DistinctKeys)
    && Pairwise(t.list, ByUpdateIdx)
    && forall b :: b in t.list ==> Proper(t, b)
  }

  lemma KeepInv(t: Table, p: Bss -> bool)
    requires Inv(t)
    ensures Inv(t.(list := Keep(t.list, p)))
  {
    KeepPairwise(t.list, p, DistinctIds);
    KeepPairwise(t.list, p, DistinctKeys);
    KeepPairwise(t.list, p, ByUpdateIdx);
    forall b | b in Keep(t.list, p) ensures Proper(t, b) {
      KeepMembers(t.list, p, b);
    }
  }

  lemma AppendInv(t: Table, b: Bss)
    requires Inv(t) && Proper(t, b) && b.lastUpdateIdx == t.updateIdx
    requires forall x :: x in t.list ==> DistinctIds(x, b) && DistinctKeys(x, b)
    ensures Inv(t.(list := t.list + [b]))
  {
    PairwiseAppend(t.list, b, DistinctIds);
    PairwiseAppend(t.list, b, DistinctKeys);
    PairwiseAppend(t.list, b, ByUpdateIdx);
  }

  lemma AddInv(t: Table, env: Env, ssid: seq<Octet>, res: ScanRes, now: Time)
    requires Inv(t) && |ssid| <= 32 && Find(t.list, (res.bssid, ssid)) == None
    ensures Inv(Add(t, env, ssid, res, now))
  {
    var b := Fresh(t, ssid, res, now);
    FirstNone(t.list, HasKey((res.bssid, ssid)));
    var t' := t.(nextId := t.nextId + 1);
    forall x | x in t.list ensures DistinctIds(x, b) && DistinctKeys(x, b) && Proper(t', x) {
      assert Proper(t, x);
    }
    AppendInv(t', b);
    var list := t.list + [b];
    KeepInv(t'.(list := list), OtherThan(Victim(list, env).id));
  }

  lemma FindIs(list: seq<Bss>, key: (Address, seq<Octet>))
    ensures var r := Find(list, key); r.Some? ==> r.value in list && r.value.Key() == key
  {
    if Find(list, key).Some? {
      var k := FirstSome(list, HasKey(key));
    }
  }

  lemma OthersDiffer(list: seq<Bss>, b: Bss, x: Bss)
    requires Pairwise(list, DistinctKeys) && b in list && x in list && x != b
    ensures DistinctKeys(x, b)
  {
    var i, j :| 0 <= i < |list| && 0 <= j < |list| && list[i] == b && list[j] == x;
    assert i < j || j < i;
  }

  lemma UpdateInv(t: Table, b: Bss, res: ScanRes, now: Time)
    requires Inv(t) && b in t.list && b.bssid == res.bssid
    ensures Inv(Update(t, b, res, now))
  {
    var b' := Refresh(b, t.updateIdx, res, now);
    var rest := t.(list := Without(t.list, b.id));
    KeepInv(t, OtherThan(b.id));
    forall x | x in rest.list ensures DistinctIds(x, b') && DistinctKeys(x, b') {
      KeepMembers(t.list, OtherThan(b.id), x);
      OthersDiffer(t.list, b, x);
    }
    assert Proper(t, b);
    AppendInv(rest, b');
  }

  lemma {:induction false} ExpireMembers(list: seq<Bss>, env: Env, info: Option<ScanInfo>, idx: nat, b: Bss)
    ensures b in Expire(list, env, info, idx) <==>
      exists x :: x in list && !Expired(env, info, idx, x) && b == Counted(env, info, idx, x)
  {
    if list != [] {
      ExpireMembers(list[1..], env, info, idx, b);
      assert list == [list[0]] + list[1..];
    }
  }

  ghost predicate IgnoresMissCount(r: (Bss, Bss) -> bool) {
    forall a: Bss, b: Bss, m: nat, n: nat :: r(a.(missCount := m), b.(missCount := n)) == r(a, b)
  }

  /** The same entry up to its miss count. */
  predicate SameEntry(a: Bss, b: Bss) {
    a.(missCount := b.missCount) == b
  }

  lemma SameRelated(r: (Bss, Bss) -> bool, a: Bss, b: Bss, a': Bss, b': Bss)
    requires IgnoresMissCount(r) && SameEntry(a, a') && SameEntry(b, b')
    ensures r(a', b') == r(a, b)
  {
    assert r(a.(missCount := a'.missCount), b.(missCount := b'.missCount)) == r(a, b);
  }

  lemma CountedRelated(r: (Bss, Bss) -> bool, a: Bss, b: Bss, env: Env, info: Option<ScanInfo>, idx: nat)
    requires IgnoresMissCount(r)
    ensures r(Counted(env, info, idx, a), Counted(env, info, idx, b)) == r(a, b)
  {
    SameRelated(r, a, b, Counted(env, info, idx, a), Counted(env, info, idx, b));
  }

  lemma ExpireRelated(list: seq<Bss>, env: Env, info: Option<ScanInfo>, idx: nat, r: (Bss, Bss) -> bool, b: Bss)
    requires list != [] && Pairwise(list, r) && IgnoresMissCount(r) && b in Expire(list[1..], env, info, idx)
    ensures r(Counted(env, info, idx, list[0]), b)
  {
    ExpireMembers(list[1..], env, info, idx, b);
    var x :| x in list[1..] && b == Counted(env, info, idx, x);
    var k :| 0 <= k < |list[1..]| && list[1..][k] == x;
    assert x == list[k + 1];
    CountedRelated(r, list[0], x, env, info, idx);
  }

  /** Expiry keeps every relation that ignores the miss count. */
  lemma {:induction false} ExpirePairwise(list: seq<Bss>, env: Env, info: Option<ScanInfo>, idx: nat, r: (Bss, Bss) -> bool)
    requires Pairwise(list, r) && IgnoresMissCount(r)
    ensures Pairwise(Expire(list, env, info, idx), r)
  {
    if list != [] {
      var rest := Expire(list[1..], env, info, idx);
      ExpirePairwise(list[1..], env, info, idx, r);
      forall b | b in rest ensures r(Counted(env, info, idx, list[0]), b) {
        ExpireRelated(list, env, info, idx, r, b);
      }
      PairwiseCons(Counted(env, info, idx, list[0]), rest, r);
    }
  }

  lemma PairwiseCons(a: Bss, rest: seq<Bss>, r: (Bss, Bss) -> bool)
    requires Pairwise(rest, r) && forall b :: b in rest ==> r(a, b)
    ensures Pairwise([a] + rest, r)
  {
  }

  lemma ExpireInv(t: Table, env: Env, info: Option<ScanInfo>)
    requires Inv(t)
    ensures Inv(t.(list := Expire(t.list, env, info, t.updateIdx)))
  {
    ExpirePairwise(t.list, env, info, t.updateIdx, DistinctIds);
    ExpirePairwise(t.list, env, info, t.updateIdx, DistinctKeys);
    ExpirePairwise(t.list, env, info, t.updateIdx, ByUpdateIdx);
    forall b | b in Expire(t.list, env, info, t.updateIdx) ensures Proper(t, b) {
      ExpireMembers(t.list, env, info, t.updateIdx, b);
    }
  }

  lemma {:induction false} FlushOldMembers(list: seq<Bss>, env: Env, t: Time, b: Bss)
    ensures b in FlushOld(list, env, t) ==> b in list
  {
    if list != [] {
      FlushOldMembers(list[1..], env, t, b);
    }
  }

  lemma {:induction false} FlushOldPairwise(list: seq<Bss>, env: Env, t: Time, r: (Bss, Bss) -> bool)
    requires Pairwise(list, r)
    ensures Pairwise(FlushOld(list, env, t), r)
  {
    if list != [] {
      var rest := FlushOld(list[1..], env, t);
      FlushOldPairwise(list[1..], env, t, r);
      forall b | b in rest ensures r(list[0], b) {
        FlushOldMembers(list[1..], env, t, b);
        var k :| 0 <= k < |list[1..]| && list[1..][k] == b;
        assert b == list[k + 1];
      }
    }
  }

  lemma FlushOldInv(t: Table, env: Env, limit: Time)
    requires Inv(t)
    ensures Inv(t.(list := FlushOld(t.list, env, limit)))
  {
    FlushOldPairwise(t.list, env, limit, DistinctIds);
    FlushOldPairwise(t.list, env, limit, DistinctKeys);
    FlushOldPairwise(t.list, env, limit, ByUpdateIdx);
    forall b | b in FlushOld(t.list, env, limit) ensures Proper(t, b) {
      FlushOldMembers(t.list, env, limit, b);
    }
  }

  lemma SightInv(t: Table, env: Env, res: ScanRes, now: Time)
    requires Inv(t)
    ensures Inv(Sight(t, env, res, now))
  {
    match Accepts(res.ies)
    case None =>
    case Some(ssid) =>
      FindIs(t.list, (res.bssid, ssid));
      match Find(t.list, (res.bssid, ssid))
      case None => AddInv(t, env, ssid, res, now);
      case Some(b) => UpdateInv(t, b, res, now);
  }

  lemma StepInv(t: Table, e: Event)
    requires Inv(t)
    ensures Inv(Step(t, e))
  {
    match e
    case Start => forall b | b in t.list ensures Proper(Step(t, e), b) { assert Proper(t, b); }
    case Result(env, now, res) => SightInv(t, env, res, now);
    case End(env, info, newScan) => ExpireInv(t, env, info);
    case FlushByAge(env, now, age) => FlushOldInv(t, env, now.(sec := now.sec - age));
    case Flush(env) => KeepInv(t, UsedIn(env));
  }

  /** After any run: unique ids and (BSSID, SSID) pairs, order of last update, elements inside their allocation. */
  lemma {:induction false} RunInv(es: seq<Event>)
    ensures Inv(Run(es))
  {
    if es != [] {
      RunInv(es[..|es| - 1]);
      StepInv(Run(es[..|es| - 1]), es[|es| - 1]);
    }
  }
}
