/** The scan result table of wpa_supplicant (hostap08/wpa_supplicant/bss.c), as a list in update order. */
module BssModel {
  import opened Lists
  import opened Wrappers
  import opened OctetNumbers

  type Address = seq<Octet>

  // ---- Time

  datatype Time = Time(sec: int, usec: int)

  function Micros(t: Time): int { 1000000 * t.sec + t.usec }

  predicate Normal(t: Time) { 0 <= t.usec < 1000000 }

  /** os_time_before */
  predicate Before(a: Time, b: Time) {
    a.sec < b.sec || (a.sec == b.sec && a.usec < b.usec)
  }

  lemma BeforeIsLess(a: Time, b: Time)
    requires Normal(a) && Normal(b)
    ensures Before(a, b) <==> Micros(a) < Micros(b)
  {
  }

  /** The time age milliseconds before now. */
  function Stamp(now: Time, age: nat): Time {
    var usec := (age % 1000) * 1000;
    var sec := now.sec - age / 1000;
    if now.usec < usec then Time(sec - 1, now.usec + 1000000 - usec) else Time(sec, now.usec - usec)
  }

  /** The borrow keeps the microseconds normalised and the difference exact. */
  lemma StampIsDifference(now: Time, age: nat)
    requires Normal(now)
    ensures Normal(Stamp(now, age)) && Micros(Stamp(now, age)) == Micros(now) - 1000 * age
  {
    assert age == 1000 * (age / 1000) + age % 1000;
  }

  // ---- Entries and scan results

  /** What a driver reports about one BSS besides its address and elements. */
  datatype Radio = Radio(flags: nat, freq: int, beaconInt: nat, caps: nat, qual: int, noise: int, level: int, tsf: nat)

  datatype ScanRes = ScanRes(bssid: Address, radio: Radio, age: nat, ies: seq<Octet>, beaconIes: seq<Octet>) {
    function Data(): seq<Octet> { ies + beaconIes }
  }

  /** data is the allocation that follows the structure. */
  datatype Bss = Bss(id: nat, missCount: nat, lastUpdateIdx: nat, bssid: Address, ssid: seq<Octet>,
                     radio: Radio, lastUpdate: Time, data: seq<Octet>, ieLen: nat, beaconIeLen: nat) {
    function Key(): (Address, seq<Octet>) { (bssid, ssid) }

    predicate Fits() { ieLen + beaconIeLen <= |data| }

    function Ies(): seq<Octet> requires Fits() { data[..ieLen] }

    function BeaconIes(): seq<Octet> requires Fits() { data[ieLen..ieLen + beaconIeLen] }
  }

  /** What the table consults outside itself at the time of a call. */
  datatype Env = Env(current: Option<nat>, bssid: Address, pendingBssid: Address,
                     networks: seq<seq<Octet>>, maxCount: nat, expirationScanCount: nat)

  /** The frequencies and SSIDs that a scan covered; an empty list covers all. */
  datatype ScanInfo = ScanInfo(freqs: seq<int>, ssids: seq<seq<Octet>>)

  datatype Event =
    | Start
    | Result(env: Env, now: Time, res: ScanRes)
    | End(env: Env, info: Option<ScanInfo>, newScan: bool)
    | FlushByAge(env: Env, now: Time, age: int)
    | Flush(env: Env)

  datatype Table = Table(list: seq<Bss>, nextId: nat, updateIdx: nat)

  // ---- Information elements

  const EID_SSID: Octet := 0
  const EID_VENDOR_SPECIFIC: Octet := 221

  datatype Element = Element(id: Octet, body: seq<Octet>)

  /** The elements up to the first one that does not fit. */
  function Elements(ies: seq<Octet>): (es: seq<Element>) {
    if |ies| < 2 || 2 + ies[1] > |ies| then []
    else [Element(ies[0], ies[2..2 + ies[1]])] + Elements(ies[2 + ies[1]..])
  }

  function Encoding(es: seq<Element>): (r: seq<Octet>)
    requires forall k :: 0 <= k < |es| ==> |es[k].body| < 256
  {
    if es == [] then [] else [es[0].id, |es[0].body|] + es[0].body + Encoding(es[1..])
  }

  lemma FirstElement(e: Element, rest: seq<Octet>, ies: seq<Octet>)
    requires |e.body| < 256 && ies == [e.id, |e.body|] + e.body + rest
    ensures Elements(ies) == [e] + Elements(rest)
  {
    var n := |e.body|;
    assert ies[0] == e.id && ies[1] == n && ies[2..2 + n] == e.body && ies[2 + n..] == rest;
  }

  /** Parsing recovers any list of elements, even with a stray octet after it. */
  lemma {:induction false} ElementsOfEncoding(es: seq<Element>, rest: seq<Octet>)
    requires forall k :: 0 <= k < |es| ==> |es[k].body| < 256
    requires |rest| < 2
    ensures Elements(Encoding(es) + rest) == es
  {
    if es != [] {
      var head := [es[0].id, |es[0].body|] + es[0].body;
      Associative(head, Encoding(es[1..]), rest);
      FirstElement(es[0], Encoding(es[1..]) + rest, head + (Encoding(es[1..]) + rest));
      ElementsOfEncoding(es[1..], rest);
    }
  }

  /** The first element with a property. */
  function First<T>(s: seq<T>, p: T -> bool): Option<T> {
    if s == [] then None else if p(s[0]) then Some(s[0]) else First(s[1..], p)
  }

  lemma {:induction false} FirstNone<T>(s: seq<T>, p: T -> bool)
    requires First(s, p) == None
    ensures forall x :: x in s ==> !p(x)
  {
    if s != [] {
      FirstNone(s[1..], p);
      assert s == [s[0]] + s[1..];
    }
  }

  lemma {:induction false} FirstSome<T>(s: seq<T>, p: T -> bool) returns (k: nat)
    requires First(s, p).Some?
    ensures k < |s| && First(s, p) == Some(s[k]) && p(s[k]) && forall j :: 0 <= j < k ==> !p(s[j])
  {
    k := 0;
    if !p(s[0]) {
      var i := FirstSome(s[1..], p);
      k := i + 1;
      forall j | 0 <= j < k ensures !p(s[j]) {
        assert j > 0 ==> s[j] == s[1..][j - 1];
      }
    }
  }

  lemma FirstFrom<T>(s: seq<T>, k: nat, p: T -> bool)
    requires k < |s|
    ensures First(s[k..], p) == if p(s[k]) then Some(s[k]) else First(s[k + 1..], p)
  {
    assert s[k..][0] == s[k] && s[k..][1..] == s[k + 1..];
  }

  function HasId(id: Octet): Element -> bool {
    (e: Element) => e.id == id
  }

  predicate IsP2p(e: Element) {
    e.id == EID_VENDOR_SPECIFIC && |e.body| >= 4 && e.body[..4] == [0x50, 0x6f, 0x9a, 0x09]
  }

  /** "DIRECT-" */
  const P2P_WILDCARD_SSID: seq<Octet> := [0x44, 0x49, 0x52, 0x45, 0x43, 0x54, 0x2d]

  /** The SSID under which a scan result is stored, if it is stored at all. */
  function Accepts(ies: seq<Octet>): Option<seq<Octet>> {
    match First(Elements(ies), HasId(EID_SSID))
    case None => None
    case Some(e) =>
      if |e.body| > 32 then None
      else if First(Elements(ies), IsP2p).Some? && e.body == P2P_WILDCARD_SSID then None
      else Some(e.body)
  }

  // ---- One step of the table

  predicate InUse(env: Env, b: Bss) {
    env.current == Some(b.id) || b.bssid == env.bssid || b.bssid == env.pendingBssid
  }

  function UsedIn(env: Env): Bss -> bool {
    (b: Bss) => InUse(env, b)
  }

  predicate Known(env: Env, b: Bss) {
    exists k :: 0 <= k < |env.networks| && env.networks[k] != [] && env.networks[k] == b.ssid
  }

  predicate Covered(info: Option<ScanInfo>, b: Bss) {
    info.Some? ==>
      && (info.value.freqs == [] || b.radio.freq in info.value.freqs)
      && (info.value.ssids == [] || [] in info.value.ssids || b.ssid in info.value.ssids)
  }

  function Fresh(t: Table, ssid: seq<Octet>, res: ScanRes, now: Time): Bss {
    Bss(t.nextId, 0, t.updateIdx, res.bssid, ssid, res.radio, Stamp(now, res.age), res.Data(), |res.ies|, |res.beaconIes|)
  }

  /** The entry after a new sighting; the allocation grows only if the elements need more room than before. */
  function Refresh(b: Bss, idx: nat, res: ScanRes, now: Time): Bss {
    var n := |res.Data()|;
    var data := if n <= b.ieLen + b.beaconIeLen && n <= |b.data| then res.Data() + b.data[n..] else res.Data();
    b.(missCount := 0, lastUpdateIdx := idx, bssid := res.bssid, radio := res.radio, lastUpdate := Stamp(now, res.age),
       data := data, ieLen := |res.ies|, beaconIeLen := |res.beaconIes|)
  }

  function OtherThan(id: nat): Bss -> bool {
    (b: Bss) => b.id != id
  }

  function Without(list: seq<Bss>, id: nat): seq<Bss> {
    Keep(list, OtherThan(id))
  }

  function Unknown(env: Env): Bss -> bool {
    (b: Bss) => !Known(env, b)
  }

  /** The entry that gives way: the first unknown one, or else the first. */
  function Victim(list: seq<Bss>, env: Env): Bss
    requires list != []
  {
    match First(list, Unknown(env))
    case Some(b) => b
    case None => list[0]
  }

  function RemoveOldest(list: seq<Bss>, env: Env): seq<Bss>
    requires list != []
  {
    Without(list, Victim(list, env).id)
  }

  function HasKey(key: (Address, seq<Octet>)): Bss -> bool {
    (b: Bss) => b.Key() == key
  }

  function Find(list: seq<Bss>, key: (Address, seq<Octet>)): Option<Bss> {
    First(list, HasKey(key))
  }

  function Add(t: Table, env: Env, ssid: seq<Octet>, res: ScanRes, now: Time): Table {
    var list := t.list + [Fresh(t, ssid, res, now)];
    Table(if |list| > env.maxCount then RemoveOldest(list, env) else list, t.nextId + 1, t.updateIdx)
  }

  function Update(t: Table, b: Bss, res: ScanRes, now: Time): Table {
    t.(list := Without(t.list, b.id) + [Refresh(b, t.updateIdx, res, now)])
  }

  function Sight(t: Table, env: Env, res: ScanRes, now: Time): Table {
    match Accepts(res.ies)
    case None => t
    case Some(ssid) =>
      match Find(t.list, (res.bssid, ssid))
      case None => Add(t, env, ssid, res, now)
      case Some(b) => Update(t, b, res, now)
  }

  /** The scan covered the entry and it was not in use. */
  predicate Examined(env: Env, info: Option<ScanInfo>, b: Bss) {
    !InUse(env, b) && Covered(info, b)
  }

  function Counted(env: Env, info: Option<ScanInfo>, idx: nat, b: Bss): Bss {
    if Examined(env, info, b) && b.lastUpdateIdx < idx then b.(missCount := b.missCount + 1) else b
  }

  predicate Expired(env: Env, info: Option<ScanInfo>, idx: nat, b: Bss) {
    Examined(env, info, b) && Counted(env, info, idx, b).missCount >= env.expirationScanCount
  }

  function Expire(list: seq<Bss>, env: Env, info: Option<ScanInfo>, idx: nat): (r: seq<Bss>)
    ensures |r| <= |list|
  {
    if list == [] then []
    else
      var rest := Expire(list[1..], env, info, idx);
      if Expired(env, info, idx, list[0]) then rest else [Counted(env, info, idx, list[0])] + rest
  }

  predicate Old(env: Env, t: Time, b: Bss) {
    !InUse(env, b) && Before(b.lastUpdate, t)
  }

  /** Stops at the first entry that is neither in use nor old. */
  function FlushOld(list: seq<Bss>, env: Env, t: Time): (r: seq<Bss>)
    ensures |r| <= |list|
  {
    if list == [] then []
    else if InUse(env, list[0]) then [list[0]] + FlushOld(list[1..], env, t)
    else if Before(list[0].lastUpdate, t) then FlushOld(list[1..], env, t)
    else list
  }

  function Step(t: Table, e: Event): Table {
    match e
    case Start => t.(updateIdx := t.updateIdx + 1)
    case Result(env, now, res) => Sight(t, env, res, now)
    case End(env, info, newScan) => if newScan then t.(list := Expire(t.list, env, info, t.updateIdx)) else t
    case FlushByAge(env, now, age) => t.(list := FlushOld(t.list, env, now.(sec := now.sec - age)))
    case Flush(env) => t.(list := Keep(t.list, UsedIn(env)))
  }

  function Run(es: seq<Event>): Table {
    if es == [] then Table([], 0, 0) else Step(Run(es[..|es| - 1]), es[|es| - 1])
  }
}
