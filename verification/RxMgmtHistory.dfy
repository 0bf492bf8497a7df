/** The association state of every station, told by the frames alone: after one frame and after any run of them. */
module RxMgmtHistory {
  import opened Octets
  import opened Ieee80211
  import opened Wrappers
  import opened RxMgmt
  import opened RxMgmtRuns
  import opened Histories

  // ---- The fields of a frame as octets

  lemma KindByOctet(f: Octets)
    requires |f| >= 24
    ensures KindOf(f) == AssocReq <==> f[0] & 0xf0 == 0x00
    ensures KindOf(f) == AssocResp <==> f[0] & 0xf0 == 0x10
    ensures KindOf(f) == ReassocReq <==> f[0] & 0xf0 == 0x20
    ensures KindOf(f) == ReassocResp <==> f[0] & 0xf0 == 0x30
    ensures KindOf(f) == ProbeResp <==> f[0] & 0xf0 == 0x50
    ensures KindOf(f) == Beacon <==> f[0] & 0xf0 == 0x80
    ensures KindOf(f) == Disassoc <==> f[0] & 0xf0 == 0xa0
    ensures KindOf(f) == Auth <==> f[0] & 0xf0 == 0xb0
    ensures KindOf(f) == Deauth <==> f[0] & 0xf0 == 0xc0
    ensures KindOf(f) == Action <==> f[0] & 0xf0 == 0xd0
  {
    assert f[..2][0] == f[0] && f[..2][1] == f[1];
    SubtypeBits(f[0], f[1]);
  }

  lemma SubtypeBits(x: bv8, y: bv8)
    ensures Subtype((x as bv16) | ((y as bv16) << 8)) == ((x & 0xf0) >> 4) as bv16
  {
  }

  lemma U16Is(f: Octets, k: nat, x: bv8)
    requires k + 2 <= |f|
    ensures U16(f, k) == x as bv16 <==> f[k..k + 2] == [x, 0]
  {
    assert f[k..k + 2] == [f[k], f[k + 1]];
    LowOctet(f[k], f[k + 1], x);
  }

  lemma LowOctet(a: bv8, b: bv8, x: bv8)
    ensures (a as bv16) | ((b as bv16) << 8) == x as bv16 <==> a == x && b == 0
  {
  }

  // ---- The four frames that move a station

  /** In BSS b, from b to a or from a to anybody; octets 4, 10 and 16 begin the three addresses. */
  predicate Names(f: Octets, b: Addr, a: Addr)
    requires |f| >= 24
  {
    f[16..22] == b && !IsGroup(b) && !IsGroup(a) && if f[10..16] == b then f[4..10] == a else f[10..16] == a
  }

  /** From b, or with a group address as its source, to the broadcast address. */
  predicate ToAll(f: Octets, b: Addr)
    requires |f| >= 24
  {
    f[16..22] == b && !IsGroup(b) && f[4] == 0xff && (f[10..16] == b || f[10] & 0x01 != 0)
  }

  predicate Concerns(f: Octets, b: Addr, a: Addr)
    requires |f| >= 24
  {
    Names(f, b, a) || ToAll(f, b)
  }

  lemma ConcernsIs(f: Octets, b: Addr, a: Addr)
    requires |f| >= 24
    ensures Names(f, b, a) <==> Bssid(f) == b && !IsGroup(b) && !IsGroup(a) && Peer(f) == a
    ensures ToAll(f, b) <==> Bssid(f) == b && !IsGroup(b) && IsGroup(Peer(f)) && IsBroadcast(Da(f))
  {
    assert f[4..10][0] == f[4] && f[10..16][0] == f[10];
    BroadcastIsGroup(Da(f));
  }

  ghost predicate Deauthenticates(env: Env, v: View, f: Octets, b: Addr, a: Addr)
    requires Total(v)
  {
    |f| >= 24 && KindOf(f) == Deauth && IsValid(env, v, f) && LongEnough(f) && Concerns(f, b, a)
  }

  ghost predicate Disassociates(env: Env, v: View, f: Octets, b: Addr, a: Addr)
    requires Total(v)
  {
    |f| >= 24 && KindOf(f) == Disassoc && IsValid(env, v, f) && LongEnough(f) && Concerns(f, b, a)
  }

  /** An Authentication frame about a: Open System, second of the transaction, successful. */
  predicate Authenticates(f: Octets, b: Addr, a: Addr) {
    |f| >= 30 && KindOf(f) == Auth && Names(f, b, a) && f[24..30] == [0, 0, 2, 0, 0, 0]
  }

  /** A successful (Re)Association Response to a. */
  predicate Associates(f: Octets, b: Addr, a: Addr) {
    && |f| >= 30 && (KindOf(f) == AssocResp || KindOf(f) == ReassocResp)
    && f[16..22] == b && f[4..10] == a && !IsGroup(b) && !IsGroup(a) && f[26..28] == [0, 0]
  }

  lemma AuthenticationFields(f: Octets)
    requires |f| >= 30
    ensures U16(f, 24) == 0 && U16(f, 26) == 2 && U16(f, 28) == 0 <==> f[24..30] == [0, 0, 2, 0, 0, 0]
  {
    U16Is(f, 24, 0);
    U16Is(f, 26, 2);
    U16Is(f, 28, 0);
    var g := f[24..30];
    assert f[24..26] == [g[0], g[1]] && f[26..28] == [g[2], g[3]] && f[28..30] == [g[4], g[5]];
    assert g == [g[0], g[1], g[2], g[3], g[4], g[5]];
  }

  lemma ClearOfOthers(env: Env, v: View, f: Octets)
    requires Total(v) && |f| >= 24 && !IsRobust(KindOf(f))
    ensures Clear(env, v, f) == f && AfterCheck(env, v, f) == v
  {
  }

  lemma LeaveState(v: View, f: Octets, valid: bool, change: Sta -> Sta, b: Addr, a: Addr)
    requires Total(v) && |f| >= 24
    ensures Leave(v, f, valid, change).sta[(b, a)] ==
      if valid && |f| >= 26 && Concerns(f, b, a) then change(v.sta[(b, a)]) else v.sta[(b, a)]
  {
    ConcernsIs(f, b, a);
  }

  lemma SameConcerns(f: Octets, g: Octets, b: Addr, a: Addr)
    requires |f| >= 24 && |g| >= 24 && Da(g) == Da(f) && Sa(g) == Sa(f) && Bssid(g) == Bssid(f)
    ensures Concerns(f, b, a) <==> Concerns(g, b, a)
  {
    ConcernsIs(f, b, a);
    ConcernsIs(g, b, a);
  }

  lemma ClearConcerns(env: Env, v: View, f: Octets, b: Addr, a: Addr)
    requires Total(v) && IsLeave(f) && IsValid(env, v, f)
    ensures var g := Clear(env, v, f); (Concerns(g, b, a) <==> Concerns(f, b, a)) && (|g| >= 26 <==> LongEnough(f))
  {
    ClearKeepsHeader(env, v, f);
    SameConcerns(f, Clear(env, v, f), b, a);
    ClearIsLongEnough(env, v, f);
  }

  lemma StateAfterLeave(env: Env, v: View, f: Octets, b: Addr, a: Addr)
    requires Total(v) && IsLeave(f)
    ensures Step(env, v, f).sta[(b, a)].state ==
      if Deauthenticates(env, v, f, b, a) then State1
      else if Disassociates(env, v, f, b, a) && v.sta[(b, a)].state == State3 then State2
      else v.sta[(b, a)].state
  {
    CheckKeepsState(env, v, f, b, a);
    if IsValid(env, v, f) {
      ClearConcerns(env, v, f, b, a);
    }
    LeaveState(AfterCheck(env, v, f), Clear(env, v, f), IsValid(env, v, f),
               if KindOf(f) == Deauth then Deauthenticated else Disassociated, b, a);
  }

  lemma AfterAuthentication(env: Env, v: View, f: Octets, b: Addr, a: Addr)
    requires Total(v) && |f| >= 24 && KindOf(f) == Auth
    ensures Step(env, v, f).sta[(b, a)].state ==
      if Authenticates(f, b, a) && v.sta[(b, a)].state == State1 then State2 else v.sta[(b, a)].state
  {
    ClearOfOthers(env, v, f);
    ConcernsIs(f, b, a);
    if |f| >= 30 {
      AuthenticationFields(f);
    }
  }

  lemma AfterResponse(env: Env, v: View, f: Octets, b: Addr, a: Addr)
    requires Total(v) && |f| >= 24 && (KindOf(f) == AssocResp || KindOf(f) == ReassocResp)
    ensures Step(env, v, f).sta[(b, a)] ==
      if |f| >= 30 && f[16..22] == b && f[4..10] == a && !IsGroup(b) && !IsGroup(a) then Associated(v.sta[(b, a)], f)
      else v.sta[(b, a)]
  {
    ClearOfOthers(env, v, f);
  }

  lemma AfterAssociation(env: Env, v: View, f: Octets, b: Addr, a: Addr)
    requires Total(v) && |f| >= 24 && (KindOf(f) == AssocResp || KindOf(f) == ReassocResp)
    ensures Step(env, v, f).sta[(b, a)].state == if Associates(f, b, a) then State3 else v.sta[(b, a)].state
  {
    AfterResponse(env, v, f, b, a);
    if |f| >= 30 {
      U16Is(f, 26, 0);
    }
  }

  lemma AfterOthers(env: Env, v: View, f: Octets, b: Addr, a: Addr)
    requires Total(v) && Complete(f) && KindOf(f) in {Beacon, ProbeResp, AssocReq, ReassocReq, Action, Other}
    ensures Step(env, v, f).sta[(b, a)].state == v.sta[(b, a)].state
  {
    CheckKeepsState(env, v, f, b, a);
  }

  /** The state of a station after a frame, from facts about the frame. */
  ghost function StateTold(env: Env, v: View, f: Octets, b: Addr, a: Addr): State
    requires Total(v)
  {
    if Deauthenticates(env, v, f, b, a) then State1
    else if Disassociates(env, v, f, b, a) && v.sta[(b, a)].state == State3 then State2
    else if Authenticates(f, b, a) && v.sta[(b, a)].state == State1 then State2
    else if Associates(f, b, a) then State3
    else v.sta[(b, a)].state
  }

  /**
   The state of every station after any frame. State 1 after a Deauthentication that is valid, long enough and about
   it; State 2 from State 3 after such a Disassociation, and from State 1 after a successful open authentication;
   State 3 after a successful (Re)Association Response; any other frame leaves it as it was.
   */
  lemma StateAfter(env: Env, v: View, f: Octets, b: Addr, a: Addr)
    requires Total(v) && (|f| < 24 || Complete(f))
    ensures Step(env, v, f).sta[(b, a)].state == StateTold(env, v, f, b, a)
  {
    if IsLeave(f) {
      StateAfterLeave(env, v, f, b, a);
    } else if |f| >= 24 {
      if KindOf(f) == Auth {
        AfterAuthentication(env, v, f, b, a);
      } else if KindOf(f) == AssocResp || KindOf(f) == ReassocResp {
        AfterAssociation(env, v, f, b, a);
      } else {
        AfterOthers(env, v, f, b, a);
      }
    }
  }

  // ---- Over runs

  ghost function ViewAt(env: Env, v: View, fs: seq<Octets>, k: nat): (r: View)
    requires Total(v) && AllComplete(fs) && k <= |fs|
    ensures Total(r)
  {
    Run(env, v, fs[..k])
  }

  lemma {:induction false} RunLast(env: Env, v: View, fs: seq<Octets>, f: Octets)
    requires Total(v) && AllComplete(fs) && (|f| < 24 || Complete(f))
    ensures AllComplete(fs + [f]) && Run(env, v, fs + [f]) == Step(env, Run(env, v, fs), f)
    decreases |fs|
  {
    if fs != [] {
      assert (fs + [f])[1..] == fs[1..] + [f];
      RunLast(env, Step(env, v, fs[0]), fs[1..], f);
    }
  }

  lemma ViewNext(env: Env, v: View, fs: seq<Octets>, k: nat)
    requires Total(v) && AllComplete(fs) && k < |fs|
    ensures ViewAt(env, v, fs, k + 1) == Step(env, ViewAt(env, v, fs, k), fs[k])
  {
    assert fs[..k + 1] == fs[..k] + [fs[k]];
    RunLast(env, v, fs[..k], fs[k]);
  }

  ghost predicate Leaves(env: Env, v: View, f: Octets, b: Addr, a: Addr)
    requires Total(v)
  {
    Deauthenticates(env, v, f, b, a) || Disassociates(env, v, f, b, a)
  }

  predicate Enters(f: Octets, b: Addr, a: Addr) {
    Authenticates(f, b, a) || Associates(f, b, a)
  }

  /** The station is in State 3 before frame k of the run. */
  ghost function InState3(env: Env, v: View, fs: seq<Octets>, b: Addr, a: Addr): nat -> bool
    requires Total(v) && AllComplete(fs)
  {
    (k: nat) => k <= |fs| && ViewAt(env, v, fs, k).sta[(b, a)].state == State3
  }

  ghost function NotInState1(env: Env, v: View, fs: seq<Octets>, b: Addr, a: Addr): nat -> bool
    requires Total(v) && AllComplete(fs)
  {
    (k: nat) => k <= |fs| && ViewAt(env, v, fs, k).sta[(b, a)].state != State1
  }

  ghost function AssociatesAt(fs: seq<Octets>, b: Addr, a: Addr): nat -> bool {
    (k: nat) => k < |fs| && Associates(fs[k], b, a)
  }

  ghost function EntersAt(fs: seq<Octets>, b: Addr, a: Addr): nat -> bool {
    (k: nat) => k < |fs| && Enters(fs[k], b, a)
  }

  ghost function LeavesAt(env: Env, v: View, fs: seq<Octets>, b: Addr, a: Addr): nat -> bool
    requires Total(v) && AllComplete(fs)
  {
    (k: nat) => k < |fs| && Leaves(env, ViewAt(env, v, fs, k), fs[k], b, a)
  }

  ghost function DeauthenticatesAt(env: Env, v: View, fs: seq<Octets>, b: Addr, a: Addr): nat -> bool
    requires Total(v) && AllComplete(fs)
  {
    (k: nat) => k < |fs| && Deauthenticates(env, ViewAt(env, v, fs, k), fs[k], b, a)
  }

  lemma StateNext(env: Env, v: View, f: Octets, b: Addr, a: Addr)
    requires Total(v) && (|f| < 24 || Complete(f))
    ensures Step(env, v, f).sta[(b, a)].state == State3 <==>
      Associates(f, b, a) || (v.sta[(b, a)].state == State3 && !Leaves(env, v, f, b, a))
    ensures Step(env, v, f).sta[(b, a)].state != State1 <==>
      Enters(f, b, a) || (v.sta[(b, a)].state != State1 && !Deauthenticates(env, v, f, b, a))
  {
    StateAfter(env, v, f, b, a);
  }

  lemma InState3Next(env: Env, v: View, fs: seq<Octets>, b: Addr, a: Addr, k: nat)
    requires Total(v) && AllComplete(fs) && k < |fs|
    ensures InState3(env, v, fs, b, a)(k + 1) <==>
      AssociatesAt(fs, b, a)(k) || (InState3(env, v, fs, b, a)(k) && !LeavesAt(env, v, fs, b, a)(k))
  {
    ViewNext(env, v, fs, k);
    StateNext(env, ViewAt(env, v, fs, k), fs[k], b, a);
  }

  lemma NotInState1Next(env: Env, v: View, fs: seq<Octets>, b: Addr, a: Addr, k: nat)
    requires Total(v) && AllComplete(fs) && k < |fs|
    ensures NotInState1(env, v, fs, b, a)(k + 1) <==>
      EntersAt(fs, b, a)(k) || (NotInState1(env, v, fs, b, a)(k) && !DeauthenticatesAt(env, v, fs, b, a)(k))
  {
    ViewNext(env, v, fs, k);
    StateNext(env, ViewAt(env, v, fs, k), fs[k], b, a);
  }

  /** A station is in State 3 after a run if and only if it was before or got there by a frame, and has not left since. */
  lemma AssociatedIff(env: Env, v: View, fs: seq<Octets>, b: Addr, a: Addr)
    requires Total(v) && AllComplete(fs)
    ensures Run(env, v, fs).sta[(b, a)].state == State3 <==> exists k: nat ::
      MadeAt(InState3(env, v, fs, b, a), AssociatesAt(fs, b, a), LeavesAt(env, v, fs, b, a), |fs|, k)
  {
    forall k: nat | k < |fs|
      ensures InState3(env, v, fs, b, a)(k + 1) <==>
        AssociatesAt(fs, b, a)(k) || (InState3(env, v, fs, b, a)(k) && !LeavesAt(env, v, fs, b, a)(k))
    {
      InState3Next(env, v, fs, b, a, k);
    }
    HoldsIff(InState3(env, v, fs, b, a), AssociatesAt(fs, b, a), LeavesAt(env, v, fs, b, a), |fs|);
    assert fs[..|fs|] == fs;
  }

  /** It is in State 2 or 3 if and only if it was at the start or became so, and has not been deauthenticated since. */
  lemma AuthenticatedIff(env: Env, v: View, fs: seq<Octets>, b: Addr, a: Addr)
    requires Total(v) && AllComplete(fs)
    ensures Run(env, v, fs).sta[(b, a)].state != State1 <==> exists k: nat ::
      MadeAt(NotInState1(env, v, fs, b, a), EntersAt(fs, b, a), DeauthenticatesAt(env, v, fs, b, a), |fs|, k)
  {
    forall k: nat | k < |fs|
      ensures NotInState1(env, v, fs, b, a)(k + 1) <==>
        EntersAt(fs, b, a)(k) || (NotInState1(env, v, fs, b, a)(k) && !DeauthenticatesAt(env, v, fs, b, a)(k))
    {
      NotInState1Next(env, v, fs, b, a, k);
    }
    HoldsIff(NotInState1(env, v, fs, b, a), EntersAt(fs, b, a), DeauthenticatesAt(env, v, fs, b, a), |fs|);
    assert fs[..|fs|] == fs;
  }

  // ---- What else a frame changes

  /** A (Re)Association Request of a to b whose elements can be parsed. */
  predicate Requests(env: Env, f: Octets, b: Addr, a: Addr) {
    && |f| >= 24 && f[16..22] == b && f[10..16] == a && !IsGroup(b) && !IsGroup(a)
    && (|| (KindOf(f) == AssocReq && |f| >= 28 && env.parse(f[28..]).Some?)
        || (KindOf(f) == ReassocReq && |f| >= 34 && env.parse(f[34..]).Some?))
  }

  /** Where the elements of a request begin: a Reassociation Request also has the address of the current BSS. */
  function RequestBody(f: Octets): nat
    requires |f| >= 24
  {
    if f[0] & 0xf0 == 0x20 then 34 else 28
  }

  lemma AidBits(x: bv8, y: bv8)
    ensures ((x as bv16) | ((y as bv16) << 8)) & 0xc000 == ((y & 0xc0) as bv16) << 8
  {
  }

  lemma AidIs(f: Octets)
    requires |f| >= 30
    ensures U16(f, 28) & 0xc000 == ((f[29] & 0xc0) as bv16) << 8
  {
    assert f[28..30] == [f[28], f[29]];
    AidBits(f[28], f[29]);
  }

  lemma CheckKeepsIdentity(env: Env, v: View, f: Octets, b: Addr, a: Addr)
    requires Total(v) && |f| >= 24
    ensures SameIdentity(AfterCheck(env, v, f).sta[(b, a)], v.sta[(b, a)])
  {
  }

  /** All but the state and the packet numbers. */
  predicate SameIdentity(s: Sta, t: Sta) {
    s.ptk == t.ptk && s.aid == t.aid && SameRequest(s, t)
  }

  predicate SameRequest(s: Sta, t: Sta) {
    s.request == t.request && s.rsnIe == t.rsnIe && s.rsnCapab == t.rsnCapab && s.security == t.security
  }

  lemma LeaveKeepsIdentity(env: Env, v: View, f: Octets, b: Addr, a: Addr)
    requires Total(v) && IsLeave(f)
    ensures SameIdentity(Step(env, v, f).sta[(b, a)], v.sta[(b, a)])
  {
    CheckKeepsIdentity(env, v, f, b, a);
    LeaveState(AfterCheck(env, v, f), Clear(env, v, f), IsValid(env, v, f),
               if KindOf(f) == Deauth then Deauthenticated else Disassociated, b, a);
  }

  lemma AssociatedAid(s: Sta, f: Octets)
    requires |f| >= 30
    ensures Associated(s, f).aid == if f[26..28] == [0, 0] then ((f[29] & 0xc0) as bv16) << 8 else s.aid
    ensures Associated(s, f).ptk == s.ptk && SameRequest(Associated(s, f), s)
  {
    U16Is(f, 26, 0);
    AidIs(f);
  }

  lemma AssociationSetsAid(env: Env, v: View, f: Octets, b: Addr, a: Addr)
    requires Total(v) && |f| >= 24 && (KindOf(f) == AssocResp || KindOf(f) == ReassocResp)
    ensures var s, t := v.sta[(b, a)], Step(env, v, f).sta[(b, a)];
      && t.aid == (if Associates(f, b, a) then ((f[29] & 0xc0) as bv16) << 8 else s.aid)
      && t.ptk == s.ptk && SameRequest(t, s)
  {
    AfterResponse(env, v, f, b, a);
    if |f| >= 30 {
      AssociatedAid(v.sta[(b, a)], f);
    }
  }

  /** The request as it is kept. */
  function RequestOf(f: Octets): AssocRequest
    requires |f| >= 28 && RequestBody(f) <= |f|
  {
    AssocRequest(Le16(f[24..26]), Le16(f[26..28]), f[RequestBody(f)..])
  }

  lemma AfterRequest(env: Env, v: View, f: Octets, b: Addr, a: Addr)
    requires Total(v) && |f| >= 24 && (KindOf(f) == AssocReq || KindOf(f) == ReassocReq)
    ensures Requests(env, f, b, a) ==> |f| >= 28 && RequestBody(f) <= |f| && env.parse(f[RequestBody(f)..]).Some?
    ensures Step(env, v, f).sta[(b, a)] ==
      if Requests(env, f, b, a) then
        Requested(env, v.sta[(b, a)].(request := RequestOf(f)), v.bss[b], env.parse(f[RequestBody(f)..]).value)
      else v.sta[(b, a)]
  {
    KindByOctet(f);
    ClearOfOthers(env, v, f);
  }

  lemma RequestedKeeps(env: Env, s: Sta, x: Bss, e: Elems)
    ensures var t := Requested(env, s, x, e); t.ptk == s.ptk && t.aid == s.aid && t.request == s.request
  {
  }

  lemma RequestIsKept(env: Env, v: View, f: Octets, b: Addr, a: Addr)
    requires Total(v) && |f| >= 24 && (KindOf(f) == AssocReq || KindOf(f) == ReassocReq)
    ensures Requests(env, f, b, a) ==> |f| >= 28 && RequestBody(f) <= |f|
    ensures var s, t := v.sta[(b, a)], Step(env, v, f).sta[(b, a)];
      && t.ptk == s.ptk && t.aid == s.aid
      && if Requests(env, f, b, a) then t.request == RequestOf(f) else SameRequest(t, s)
  {
    AfterRequest(env, v, f, b, a);
    if Requests(env, f, b, a) {
      RequestedKeeps(env, v.sta[(b, a)].(request := RequestOf(f)), v.bss[b], env.parse(f[RequestBody(f)..]).value);
    }
  }

  lemma OthersKeepIdentity(env: Env, v: View, f: Octets, b: Addr, a: Addr)
    requires Total(v) && Complete(f) && KindOf(f) in {Beacon, ProbeResp, Auth, Action, Other}
    ensures SameIdentity(Step(env, v, f).sta[(b, a)], v.sta[(b, a)])
  {
    CheckKeepsIdentity(env, v, f, b, a);
  }

  /**
   What else is known about a station after any frame. The key stays; the association id is replaced by a successful
   (Re)Association Response only, by its two highest bits; the request is replaced by a (Re)Association Request that
   can be parsed only, and only then does what the station uses change.
   */
  lemma StationAfter(env: Env, v: View, f: Octets, b: Addr, a: Addr)
    requires Total(v) && (|f| < 24 || Complete(f))
    ensures Requests(env, f, b, a) ==> |f| >= 28 && RequestBody(f) <= |f|
    ensures var s, t := v.sta[(b, a)], Step(env, v, f).sta[(b, a)];
      && t.ptk == s.ptk
      && t.aid == (if Associates(f, b, a) then ((f[29] & 0xc0) as bv16) << 8 else s.aid)
      && if Requests(env, f, b, a) then t.request == RequestOf(f) else SameRequest(t, s)
  {
    if |f| >= 24 {
      if IsLeave(f) {
        LeaveKeepsIdentity(env, v, f, b, a);
      } else if KindOf(f) == AssocResp || KindOf(f) == ReassocResp {
        AssociationSetsAid(env, v, f, b, a);
      } else if KindOf(f) == AssocReq || KindOf(f) == ReassocReq {
        RequestIsKept(env, v, f, b, a);
      } else {
        OthersKeepIdentity(env, v, f, b, a);
      }
    }
  }

  predicate UsesIe(s: Sta, t: Sta, ie: Option<Octets>, d: IeData) {
    && t.rsnIe == ie && t.rsnCapab == d.capab && t.security.proto == d.security.proto
    && t.security.pairwise == d.security.pairwise && t.security.keyMgmt == d.security.keyMgmt
    && t.security.group == s.security.group && t.security.mgmtGroup == s.security.mgmtGroup
  }

  lemma PrivacyBit(f: Octets)
    requires |f| >= 28
    ensures Privacy(Le16(f[24..26])) <==> f[24] & 0x10 != 0
  {
    assert f[24..26] == [f[24], f[25]];
    PrivacyOctet(f[24], f[25]);
  }

  lemma PrivacyOctet(x: bv8, y: bv8)
    ensures ((x as bv16) | ((y as bv16) << 8)) & 0x0010 != 0 <==> x & 0x10 != 0
  {
  }

  lemma RequestedIs(env: Env, s: Sta, x: Bss, e: Elems)
    ensures var t := Requested(env, s, x, e);
      if e.rsnIe.Some? && x.rsnIe.Some? then UsesIe(s, t, e.rsnIe, env.parseRsn(e.rsnIe.value))
      else if e.wpaIe.Some? && x.wpaIe.Some? then UsesIe(s, t, e.wpaIe, env.parseWpa(e.wpaIe.value))
      else
        UsesIe(s, t, None, IeData(false, Security(0, if Privacy(s.request.capabInfo) then 2 else 0, 0, 0, 0), 0))
  {
  }

  /**
   What a station uses after its request: the RSN element if both it and the BSS have one, else the WPA element if
   both have one, else no element, and then WEP if the capabilities it sent ask for privacy.
   */
  lemma UsesAfterRequest(env: Env, v: View, f: Octets, b: Addr, a: Addr)
    requires Total(v) && Requests(env, f, b, a)
    ensures RequestBody(f) <= |f| && env.parse(f[RequestBody(f)..]).Some?
    ensures
      var e, x := env.parse(f[RequestBody(f)..]).value, v.bss[b];
      var s, t := v.sta[(b, a)], Step(env, v, f).sta[(b, a)];
      if e.rsnIe.Some? && x.rsnIe.Some? then UsesIe(s, t, e.rsnIe, env.parseRsn(e.rsnIe.value))
      else if e.wpaIe.Some? && x.wpaIe.Some? then UsesIe(s, t, e.wpaIe, env.parseWpa(e.wpaIe.value))
      else UsesIe(s, t, None, IeData(false, Security(0, if f[24] & 0x10 != 0 then 2 else 0, 0, 0, 0), 0))
  {
    AfterRequest(env, v, f, b, a);
    PrivacyBit(f);
    RequestedIs(env, v.sta[(b, a)].(request := RequestOf(f)), v.bss[b], env.parse(f[RequestBody(f)..]).value);
  }

  /** The frame takes down the direct links of a station: it leaves, and is named. */
  ghost predicate EndsLinks(env: Env, v: View, f: Octets, b: Addr, a: Addr)
    requires Total(v)
  {
    IsLeave(f) && IsValid(env, v, f) && LongEnough(f) && Names(f, b, a)
  }

  lemma CheckKeepsLinks(env: Env, v: View, f: Octets, b: Addr)
    requires Total(v) && |f| >= 24
    ensures AfterCheck(env, v, f).bss[b].links == v.bss[b].links
  {
  }

  lemma LeaveLinks(v: View, f: Octets, valid: bool, change: Sta -> Sta, b: Addr)
    requires Total(v) && |f| >= 24
    ensures Leave(v, f, valid, change).bss[b].links ==
      if valid && |f| >= 26 && Names(f, b, Peer(f)) then LinksDown(v.bss[b].links, Peer(f)) else v.bss[b].links
  {
    ConcernsIs(f, b, Peer(f));
  }

  lemma AnnounceKeepsLinks(env: Env, x: Bss, f: Octets)
    requires |f| >= 36
    ensures Announced(env, x, f).links == x.links
  {
  }

  lemma OthersKeepLinks(env: Env, v: View, f: Octets, b: Addr)
    requires Total(v) && Complete(f) && !IsLeave(f)
    ensures Step(env, v, f).bss[b].links == v.bss[b].links
  {
    CheckKeepsLinks(env, v, f, b);
    if KindOf(f) == Beacon || KindOf(f) == ProbeResp {
      ClearOfOthers(env, v, f);
      AnnounceKeepsLinks(env, v.bss[b], f);
    }
  }

  /** A direct link is up after a frame if and only if it was up and neither end has left by being named. */
  lemma LinkAfter(env: Env, v: View, f: Octets, b: Addr, k: nat)
    requires Total(v) && (|f| < 24 || Complete(f)) && k < |v.bss[b].links|
    ensures |Step(env, v, f).bss[b].links| == |v.bss[b].links|
    ensures var l, m := v.bss[b].links[k], Step(env, v, f).bss[b].links[k];
      && m.initiator == l.initiator && m.responder == l.responder
      && (m.up <==> l.up && !EndsLinks(env, v, f, b, l.initiator) && !EndsLinks(env, v, f, b, l.responder))
  {
    if IsLeave(f) {
      LeaveLinksIff(env, v, f, b);
      NamesPeer(f, b, v.bss[b].links[k].initiator);
      NamesPeer(f, b, v.bss[b].links[k].responder);
    } else if |f| >= 24 {
      OthersKeepLinks(env, v, f, b);
    }
  }

  lemma NamesPeer(f: Octets, b: Addr, a: Addr)
    requires |f| >= 24
    ensures Names(f, b, a) <==> Names(f, b, Peer(f)) && a == Peer(f)
  {
    ConcernsIs(f, b, a);
    ConcernsIs(f, b, Peer(f));
  }

  lemma ClearNames(env: Env, v: View, f: Octets, b: Addr)
    requires Total(v) && IsLeave(f) && IsValid(env, v, f)
    ensures var g := Clear(env, v, f);
      && Peer(g) == Peer(f) && (|g| >= 26 <==> LongEnough(f)) && (Names(g, b, Peer(f)) <==> Names(f, b, Peer(f)))
  {
    ClearKeepsHeader(env, v, f);
    ClearIsLongEnough(env, v, f);
    ConcernsIs(f, b, Peer(f));
    ConcernsIs(Clear(env, v, f), b, Peer(f));
  }

  lemma LeaveLinksIff(env: Env, v: View, f: Octets, b: Addr)
    requires Total(v) && IsLeave(f)
    ensures Step(env, v, f).bss[b].links ==
      if IsValid(env, v, f) && LongEnough(f) && Names(f, b, Peer(f)) then LinksDown(v.bss[b].links, Peer(f))
      else v.bss[b].links
  {
    CheckKeepsLinks(env, v, f, b);
    if IsValid(env, v, f) {
      ClearNames(env, v, f, b);
    }
    LeaveLinks(AfterCheck(env, v, f), Clear(env, v, f), IsValid(env, v, f),
               if KindOf(f) == Deauth then Deauthenticated else Disassociated, b);
  }

  // ---- What a BSS advertises is up to date

  /** The capabilities and ciphers are those of the elements last seen. */
  predicate Current(env: Env, x: Bss) {
    && x.rsnCapab == Advertised(env, x.wpaIe, x.rsnIe)
    && x.security == AdvertisedSecurity(env, x.wpaIe, x.rsnIe, x.prevCapabInfo)
  }

  lemma AnnouncedIsCurrent(env: Env, x: Bss, f: Octets)
    requires |f| >= 36 && Current(env, x)
    ensures Current(env, Announced(env, x, f))
  {
  }

  predicate SameInfo(x: Bss, y: Bss) {
    && x.capabInfo == y.capabInfo && x.prevCapabInfo == y.prevCapabInfo && x.ssid == y.ssid && x.wpaIe == y.wpaIe
    && x.rsnIe == y.rsnIe && x.rsnCapab == y.rsnCapab && x.security == y.security
  }

  lemma IpnKeepsInfo(x: Bss, keyid: bv16, ipn: Octets)
    ensures SameInfo(SetIpn(x, keyid, ipn), x)
  {
  }

  lemma CheckKeepsInfo(env: Env, v: View, f: Octets, b: Addr)
    requires Total(v) && |f| >= 24
    ensures SameInfo(AfterCheck(env, v, f).bss[b], v.bss[b])
  {
    if CheckBip(env, v.bss[Bssid(f)], f).BipGood? {
      IpnKeepsInfo(v.bss[Bssid(f)], CheckBip(env, v.bss[Bssid(f)], f).keyid, MmieIpn(f));
    }
  }

  lemma HandleKeepsInfo(env: Env, v: View, k: Kind, f: Octets, valid: bool, b: Addr)
    requires Total(v) && |f| >= 24 && k != Beacon && k != ProbeResp
    ensures SameInfo(Handle(env, v, k, f, valid).bss[b], v.bss[b])
  {
  }

  lemma AfterAnnouncement(env: Env, v: View, f: Octets, b: Addr)
    requires Total(v) && |f| >= 36 && (KindOf(f) == Beacon || KindOf(f) == ProbeResp)
    ensures Step(env, v, f).bss[b] ==
      if f[16..22] == b && !IsGroup(b) then Announced(env, v.bss[b], f) else v.bss[b]
  {
    ClearOfOthers(env, v, f);
  }

  /** What a BSS advertises changes by its own Beacons and Probe Responses only. */
  lemma OnlyAnnouncementsInform(env: Env, v: View, f: Octets, b: Addr)
    requires Total(v) && (|f| < 24 || Complete(f))
    ensures SameInfo(Step(env, v, f).bss[b], v.bss[b]) ||
      (|f| >= 36 && (f[0] & 0xf0 == 0x50 || f[0] & 0xf0 == 0x80) && f[16..22] == b && !IsGroup(b))
  {
    if |f| >= 24 {
      KindByOctet(f);
      if KindOf(f) == Beacon || KindOf(f) == ProbeResp {
        AfterAnnouncement(env, v, f, b);
      } else {
        CheckKeepsInfo(env, v, f, b);
        HandleKeepsInfo(env, AfterCheck(env, v, f), KindOf(f), Clear(env, v, f), IsValid(env, v, f), b);
      }
    }
  }

  lemma StepKeepsCurrent(env: Env, v: View, f: Octets, b: Addr)
    requires Total(v) && (|f| < 24 || Complete(f)) && Current(env, v.bss[b])
    ensures Current(env, Step(env, v, f).bss[b])
  {
    OnlyAnnouncementsInform(env, v, f, b);
    if !SameInfo(Step(env, v, f).bss[b], v.bss[b]) {
      KindByOctet(f);
      AfterAnnouncement(env, v, f, b);
      AnnouncedIsCurrent(env, v.bss[b], f);
    }
  }

  lemma {:induction false} RunKeepsCurrent(env: Env, v: View, fs: seq<Octets>, b: Addr)
    requires Total(v) && AllComplete(fs) && Current(env, v.bss[b])
    ensures Current(env, Run(env, v, fs).bss[b])
    decreases |fs|
  {
    if fs != [] {
      StepKeepsCurrent(env, v, fs[0], b);
      RunKeepsCurrent(env, Step(env, v, fs[0]), fs[1..], b);
    }
  }
}
