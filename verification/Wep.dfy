/** WEP decapsulation (hostap08/wlantest/wep.c). */
module Wep {
  import opened Octets
  import opened Rc4
  import opened Wrappers
  import opened Modular
  import Fcs

  // ---- wep_crypt

  method SwapInPlace(S: array<Cell>, a: nat, b: nat)
    requires a < S.Length && b < S.Length
    modifies S
    ensures S[..] == Swap(old(S[..]), a, b)
  {
    var t := S[a];
    S[a] := S[b];
    S[b] := t;
  }

  /** Setup RC4 state; the 16-octet key is indexed with i & 0x0f. */
  method KeySetup(key: seq<Cell>) returns (S: array<Cell>)
    requires |key| == 16
    ensures fresh(S) && S.Length == 256 && S[..] == Setup(key)
  {
    S := NewState();
    var j: Cell := 0;
    var i := 0;
    ghost var k := Repeat(key);
    while i < 256
      invariant 0 <= i <= 256
      invariant Scheduler(k, S[..], i, j) == Scheduled(key, i)
    {
      RepeatAt(key, i);
      ScheduledNext(key, i);
      j := MixIn(S, i, j, key[i % 16], k);
      i := i + 1;
    }
  }

  lemma RepeatAt(key: seq<Cell>, i: nat)
    requires |key| == 16 && i < 256
    ensures Repeat(key)[i] == key[i % 16]
  {
  }

  method MixIn(S: array<Cell>, i: nat, j: Cell, octet: Cell, ghost k: State) returns (j': Cell)
    requires S.Length == 256 && i < 256 && octet == k[i]
    modifies S
    ensures Scheduler(k, S[..], i + 1, j') == Scheduler(k, old(S[..]), i, j).Next()
  {
    j' := Wrap(j + S[i] + octet);
    SwapInPlace(S, i, j');
  }

  method NewState() returns (S: array<Cell>)
    ensures fresh(S) && S.Length == 256 && S[..] == Identity()
  {
    S := new Cell[256];
    var i := 0;
    while i < 256
      invariant 0 <= i <= 256
      invariant forall k :: 0 <= k < i ==> S[k] == k
    {
      S[i] := i;
      i := i + 1;
    }
  }

  /** One octet of key stream. */
  method Generate(S: array<Cell>, i: Cell, j: Cell) returns (i': Cell, j': Cell, out: Cell)
    requires S.Length == 256
    modifies S
    ensures Generator(S[..], i', j') == Generator(old(S[..]), i, j).Next()
    ensures out == Generator(S[..], i', j').Output()
  {
    i' := Wrap(i + 1);
    j' := Wrap(j + S[i']);
    SwapInPlace(S, i', j');
    var sum: int := S[i'] as int + S[j'] as int;
    out := S[Wrap(sum)];
  }

  method WepCrypt(key: Octets, buf: array<bv8>)
    requires |key| == 16
    modifies buf
    ensures buf[..] == Crypt(key, old(buf[..]))
  {
    var S := KeySetup(ToCells(key));
    ghost var start := Generator(Setup(ToCells(key)), 0, 0);
    forall k | 0 <= k < buf.Length
      ensures Crypt(key, buf[..])[k] == buf[k] ^ (After(start, k + 1).Output() as bv8)
    {
      StreamAt(start, buf[..], k);
    }
    ApplyStream(S, start, Crypt(key, buf[..]), buf);
  }

  /** Apply RC4 to data. */
  method ApplyStream(S: array<Cell>, ghost start: Generator, ghost result: Octets, buf: array<bv8>)
    requires S.Length == 256 && start == Generator(S[..], 0, 0) && S as object != buf as object
    requires |result| == buf.Length
    requires forall k :: 0 <= k < buf.Length ==> result[k] == buf[k] ^ (After(start, k + 1).Output() as bv8)
    modifies S, buf
    ensures buf[..] == result
  {
    var i: Cell, j: Cell := 0, 0;
    var k := 0;
    while k < buf.Length
      invariant 0 <= k <= buf.Length
      invariant Generator(S[..], i, j) == After(start, k)
      invariant buf[..k] == result[..k]
      invariant buf[k..] == old(buf[k..])
    {
      AfterNext(start, k);
      i, j := CryptOctet(S, i, j, buf, k, After(start, k + 1), result[k]);
      k := k + 1;
    }
  }

  lemma StreamAt(start: Generator, data: Octets, k: nat)
    requires k < |data|
    ensures Xor(data, ToOctets(Stream(start, |data|)))[k] == data[k] ^ (After(start, k + 1).Output() as bv8)
  {
  }

  method CryptOctet(S: array<Cell>, i: Cell, j: Cell, buf: array<bv8>, k: nat, ghost next: Generator, ghost result: bv8)
    returns (i': Cell, j': Cell)
    requires S.Length == 256 && k < buf.Length && S as object != buf as object
    requires next == Generator(S[..], i, j).Next() && result == buf[k] ^ (next.Output() as bv8)
    modifies S, buf
    ensures Generator(S[..], i', j') == next
    ensures buf[..] == old(buf[..])[k := result]
  {
    var out;
    i', j', out := Generate(S, i, j);
    buf[k] := buf[k] ^ (out as bv8);
  }

  // ---- try_wep

  /** The key repeated to the 16 octets that wep_crypt takes. */
  function Expand(key: Octets): (r: Octets)
    requires key != []
    ensures |r| == 16
  {
    seq(16, i requires 0 <= i < 16 => key[i % |key|])
  }

  lemma ModOfMod(i: nat, n: nat)
    requires n in {1, 2, 4, 8, 16}
    ensures (i % 16) % n == i % n
  {
    var m := if n == 1 then 16 else if n == 2 then 8 else if n == 4 then 4 else if n == 8 then 2 else 1;
    ModOfMultiple(i, n, m, 16);
  }

  lemma ExpandRepeats(key: Octets)
    requires |key| in {1, 2, 4, 8, 16}
    ensures Repeat(ToCells(Expand(key))) == Repeat(ToCells(key))
  {
    var a, b := ToCells(Expand(key)), ToCells(key);
    forall i | 0 <= i < 256 ensures Repeat(a)[i] == Repeat(b)[i] {
      ModOfMod(i, |key|);
    }
  }

  /** The key 0, 1, 2, ... */
  function CountingKey(n: nat): (key: Octets)
    requires n <= 16
    ensures |key| == n
  {
    [0, 1, 2, 3, 4, 5, 6, 7, 8, 9, 10, 11, 12, 13, 14, 15][..n]
  }

  /** After 16 octets the expansion starts again, and a key of another length is elsewhere. */
  lemma CountingKeyDiffers(n: nat)
    requires 1 <= n <= 16 && n !in {1, 2, 4, 8, 16}
    ensures Repeat(ToCells(Expand(CountingKey(n)))) != Repeat(ToCells(CountingKey(n)))
  {
    var key := CountingKey(n);
    var a, b := Repeat(ToCells(Expand(key))), Repeat(ToCells(key));
    assert a[16] == ToCells(Expand(key))[0] == ToCells(key)[0];
    assert b[16] == ToCells(key)[16 % n];
    assert 16 % n != 0;
    CountingCells(n, 16 % n);
  }

  lemma CountingCells(n: nat, i: nat)
    requires 0 < i < n <= 16
    ensures ToCells(CountingKey(n))[0] != ToCells(CountingKey(n))[i]
  {
    var key := CountingKey(n);
    assert key[0] == 0 && key[i] != 0;
    NonZeroCell(key[i]);
  }

  lemma NonZeroCell(x: bv8)
    requires x != 0
    ensures x as int != 0
  {
  }

  /** All keys of a length schedule like their expansion exactly if the length divides 16. */
  lemma ExpansionIsExact(n: nat)
    requires 1 <= n <= 16
    ensures (forall key: Octets :: |key| == n ==> Repeat(ToCells(Expand(key))) == Repeat(ToCells(key))) <==>
      n in {1, 2, 4, 8, 16}
  {
    if n in {1, 2, 4, 8, 16} {
      forall key: Octets | |key| == n ensures Repeat(ToCells(Expand(key))) == Repeat(ToCells(key)) {
        ExpandRepeats(key);
      }
    } else {
      CountingKeyDiffers(n);
    }
  }

  lemma ExpandSchedulesLikeKey(key: Octets, data: Octets)
    requires |key| in {8, 16}
    ensures Crypt(Expand(key), data) == Crypt(key, data)
  {
    ExpandRepeats(key);
  }

  method ExpandKey(key: Octets) returns (k: Octets)
    requires key != []
    ensures k == Expand(key)
  {
    var a := new bv8[16];
    var i, j := 0, 0;
    while i < 16
      invariant 0 <= i <= 16 && j == i % |key|
      invariant a[..i] == Expand(key)[..i]
    {
      a[i] := key[j];
      j := NextIndex(i, j, |key|);
      i := i + 1;
    }
    k := a[..];
  }

  method NextIndex(i: nat, j: nat, n: nat) returns (j': nat)
    requires n > 0 && j == i % n
    ensures j' == (i + 1) % n
  {
    NextMod(i, n);
    j' := j + 1;
    if j' >= n {
      j' := 0;
    }
  }

  /** Copy the data and apply RC4 to the copy. */
  method Decipher(key: Octets, data: Octets, plain: array<bv8>)
    requires |key| == 16 && plain.Length == |data|
    modifies plain
    ensures plain[..] == Crypt(key, data)
  {
    forall i | 0 <= i < |data| {
      plain[i] := data[i];
    }
    assert plain[..] == data;
    WepCrypt(key, plain);
  }

  /** The last four octets are the integrity check value of the others. */
  method CheckIcv(plain: Octets) returns (ok: bool)
    requires |plain| >= 4
    ensures ok <==> Fcs.FcsValid(plain)
  {
    var n := |plain| - 4;
    ok := Fcs.CheckFcs(plain[..n], plain[n..]);
    assert plain[..n] + plain[n..] == plain;
  }

  method TryWep(key: Octets, data: Octets, plain: array<bv8>) returns (ok: bool)
    requires key != [] && |data| >= 4 && plain.Length == |data|
    modifies plain
    ensures plain[..] == Crypt(Expand(key), data)
    ensures ok <==> Fcs.FcsValid(plain[..])
  {
    var k := ExpandKey(key);
    Decipher(k, data, plain);
    ok := CheckIcv(plain[..]);
  }

  // ---- wep_decrypt

  /** The frame body under one key: RC4 keyed with the IV followed by the key. */
  function Opened(key: Octets, data: Octets): (r: Octets)
    requires |data| >= 8
    ensures |r| == |data| - 4
  {
    Crypt(data[..3] + key, data[4..])
  }

  /** The value of the first list element that is valid. */
  function FirstWhere<K, V>(keys: seq<K>, valid: K -> bool, value: K -> V): Option<V> {
    if keys == [] then None
    else if valid(keys[0]) then Some(value(keys[0]))
    else FirstWhere(keys[1..], valid, value)
  }

  lemma {:induction false} FirstWhereAt<K, V>(keys: seq<K>, valid: K -> bool, value: K -> V, n: nat)
    requires n < |keys| && valid(keys[n]) && forall k :: 0 <= k < n ==> !valid(keys[k])
    ensures FirstWhere(keys, valid, value) == Some(value(keys[n]))
    decreases n
  {
    if n > 0 {
      assert keys[1..][n - 1] == keys[n];
      forall k | 0 <= k < n - 1 ensures !valid(keys[1..][k]) {
        assert keys[1..][k] == keys[k + 1];
      }
      FirstWhereAt(keys[1..], valid, value, n - 1);
    }
  }

  lemma {:induction false} FirstWhereNone<K, V>(keys: seq<K>, valid: K -> bool, value: K -> V)
    ensures FirstWhere(keys, valid, value) == None <==> forall k :: 0 <= k < |keys| ==> !valid(keys[k])
  {
    if keys != [] {
      FirstWhereNone(keys[1..], valid, value);
      assert forall k :: 0 < k < |keys| ==> keys[k] == keys[1..][k - 1];
    }
  }

  /** The key opens the frame: the integrity check value matches. */
  predicate Opens(key: Octets, data: Octets)
    requires |data| >= 8
  {
    Fcs.FcsValid(Opened(key, data))
  }

  /** The plaintext under the first listed key that opens the frame. */
  function Decapsulate(keys: seq<Octets>, data: Octets): Option<Octets> {
    if |data| < 8 then None
    else FirstWhere(keys, k => Opens(k, data), k => Opened(k, data)[..|data| - 8])
  }

  /** The keys that add_wep admits. */
  predicate ValidKeys(keys: seq<Octets>) {
    forall k :: 0 <= k < |keys| ==> |keys[k]| in {5, 13}
  }

  method TryKey(key: Octets, data: Octets, plain: array<bv8>) returns (ok: bool)
    requires |key| in {5, 13} && |data| >= 8 && plain.Length == |data| - 4
    modifies plain
    ensures plain[..] == Opened(key, data)
    ensures ok <==> Opens(key, data)
  {
    ExpandSchedulesLikeKey(data[..3] + key, data[4..]);
    ok := TryWep(data[..3] + key, data[4..], plain);
  }

  method WepDecrypt(keys: seq<Octets>, data: Octets) returns (plain: array?<bv8>, decryptedLen: nat)
    requires ValidKeys(keys)
    ensures plain == null <==> Decapsulate(keys, data) == None
    ensures plain != null ==> decryptedLen <= plain.Length && Decapsulate(keys, data) == Some(plain[..decryptedLen])
  {
    if keys == [] || |data| < 4 + 4 {
      return null, 0;
    }
    plain := new bv8[|data| - 4];
    decryptedLen := |data| - 4 - 4;
    var w := 0;
    assert keys[0..] == keys;
    while w < |keys|
      invariant 0 <= w <= |keys|
      invariant Decapsulate(keys[w..], data) == Decapsulate(keys, data)
    {
      var ok := TryKey(keys[w], data, plain);
      assert keys[w..][0] == keys[w] && keys[w..][1..] == keys[w + 1..];
      if ok {
        assert plain[..][..decryptedLen] == plain[..decryptedLen];
        return;
      }
      w := w + 1;
    }
    return null, 0;
  }

  // ---- Round trip

  /** Section 8.2.1 of IEEE Std 802.11-2007. */
  function Encapsulate(iv: Octets, keyid: bv8, key: Octets, m: Octets): (r: Octets)
    requires |iv| == 3
  {
    iv + [keyid << 6] + Crypt(iv + key, m + PutLe32(Fcs.Checksum(m)))
  }

  lemma OpenedEncapsulation(iv: Octets, keyid: bv8, key: Octets, m: Octets)
    requires |iv| == 3
    ensures var data := Encapsulate(iv, keyid, key, m);
      |data| == |m| + 8 && Opened(key, data) == m + PutLe32(Fcs.Checksum(m)) && Opens(key, data)
  {
    var data, body := Encapsulate(iv, keyid, key, m), m + PutLe32(Fcs.Checksum(m));
    assert data[..3] == iv && data[4..] == Crypt(iv + key, body);
    CryptInvolution(iv + key, body);
    assert body[..|m|] == m && body[|m|..] == PutLe32(Fcs.Checksum(m));
    Le32Inverse(Fcs.Checksum(m), body[|m|..]);
  }

  lemma DecapsulateAt(keys: seq<Octets>, n: nat, data: Octets)
    requires n < |keys| && |data| >= 8 && Opens(keys[n], data)
    requires forall k :: 0 <= k < n ==> !Opens(keys[k], data)
    ensures Decapsulate(keys, data) == Some(Opened(keys[n], data)[..|data| - 8])
  {
    FirstWhereAt(keys, k => Opens(k, data), k => Opened(k, data)[..|data| - 8], n);
  }

  /** A frame is refused if and only if it is too short or none of the keys opens it. */
  lemma RefusedIff(keys: seq<Octets>, data: Octets)
    ensures Decapsulate(keys, data) == None <==> |data| < 8 || forall k :: 0 <= k < |keys| ==> !Opens(keys[k], data)
  {
    if |data| >= 8 {
      FirstWhereNone(keys, k => Opens(k, data), k => Opened(k, data)[..|data| - 8]);
    }
  }

  /** A frame sent under a listed key is recovered, unless an earlier key happens to match it too. */
  lemma WepRoundTrip(keys: seq<Octets>, n: nat, iv: Octets, keyid: bv8, m: Octets, data: Octets)
    requires |iv| == 3 && n < |keys| && data == Encapsulate(iv, keyid, keys[n], m) && |data| >= 8
    requires forall k :: 0 <= k < n ==> !Opens(keys[k], data)
    ensures Decapsulate(keys, data) == Some(m)
  {
    OpenedEncapsulation(iv, keyid, keys[n], m);
    DecapsulateAt(keys, n, data);
    assert (m + PutLe32(Fcs.Checksum(m)))[..|m|] == m;
  }
}
