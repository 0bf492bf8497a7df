/** Octet counters, most significant octet first (inc_byte_array in hostap08/src/utils/common.c). */
module PacketNumber {
  import opened Octets
  import opened Modular

  function FromBigEndian(s: Octets): nat {
    if s == [] then 0 else 256 * FromBigEndian(s[..|s| - 1]) + s[|s| - 1] as nat
  }

  function NextOctet(x: bv8): bv8 { x + 1 }

  function Inc(s: Octets): (r: Octets)
    ensures |r| == |s|
  {
    if s == [] then []
    else
      var init, last := s[..|s| - 1], NextOctet(s[|s| - 1]);
      if last != 0 then init + [last] else Inc(init) + [last]
  }

  function IncTimes(s: Octets, k: nat): (r: Octets)
    ensures |r| == |s|
    decreases k
  {
    if k == 0 then s else Inc(IncTimes(s, k - 1))
  }

  lemma {:induction false} ValueBound(s: Octets)
    ensures FromBigEndian(s) < Pow256(|s|)
  {
    if s != [] {
      ValueBound(s[..|s| - 1]);
    }
  }

  /** One more, or from the greatest value back to zero. */
  lemma {:induction false} IncValue(s: Octets)
    ensures FromBigEndian(Inc(s)) == if FromBigEndian(s) + 1 == Pow256(|s|) then 0 else FromBigEndian(s) + 1
  {
    if s != [] {
      var init, last := s[..|s| - 1], s[|s| - 1];
      var r := Inc(s);
      NextOctetValue(last);
      IncValue(init);
      ValueBound(init);
      assert r[|s| - 1] == NextOctet(last);
      assert r[..|s| - 1] == if NextOctet(last) != 0 then init else Inc(init);
    }
  }

  lemma IncRemainder(s: Octets, x: nat, n: nat)
    requires n == Pow256(|s|) && FromBigEndian(s) == x % n
    ensures FromBigEndian(Inc(s)) == (x + 1) % n
  {
    IncValue(s);
    NextMod(x, n);
  }

  lemma {:induction false} IncTimesValue(s: Octets, k: nat)
    ensures FromBigEndian(IncTimes(s, k)) == (FromBigEndian(s) + k) % Pow256(|s|)
    decreases k
  {
    var n, v := Pow256(|s|), FromBigEndian(s);
    ValueBound(s);
    if k == 0 {
      UniqueRemainder(v, n, 0, v);
    } else {
      IncTimesValue(s, k - 1);
      IncRemainder(IncTimes(s, k - 1), v + k - 1, n);
    }
  }

  /** Fewer than 256^n increments never repeat a value. */
  lemma IncTimesDistinct(s: Octets, i: nat, j: nat)
    requires i < j < i + Pow256(|s|)
    ensures IncTimes(s, i) != IncTimes(s, j)
  {
    IncTimesValue(s, i);
    IncTimesValue(s, j);
    SumsDiffer(FromBigEndian(s), i, j, Pow256(|s|));
  }

  lemma SumsDiffer(v: nat, i: nat, j: nat, n: nat)
    requires i < j < i + n
    ensures (v + i) % n != (v + j) % n
  {
    if (v + i) % n == (v + j) % n {
      SameRemainder(v + i, v + j, n);
    }
  }

  lemma IncPrefix(s: Octets, pos: nat)
    requires pos < |s|
    ensures var x := NextOctet(s[pos]); Inc(s[..pos + 1]) == (if x != 0 then s[..pos] else Inc(s[..pos])) + [x]
  {
    var low := s[..pos + 1];
    assert low[..pos] == s[..pos];
  }

  method IncOne(counter: array<bv8>, pos: nat)
    requires pos < counter.Length
    modifies counter
    ensures counter[pos] == NextOctet(old(counter[pos]))
    ensures counter[..pos] == old(counter[..pos]) && counter[pos..] == [counter[pos]] + old(counter[pos + 1..])
  {
    counter[pos] := counter[pos] + 1;
  }

  method IncByteArray(counter: array<bv8>)
    modifies counter
    ensures counter[..] == Inc(old(counter[..]))
  {
    ghost var s, n := counter[..], counter.Length;
    assert s[..n] == s && Inc(s) + [] == Inc(s);
    var pos := counter.Length - 1;
    while pos >= 0
      invariant -1 <= pos < n && counter[..pos + 1] == s[..pos + 1]
      invariant Inc(s) == Inc(s[..pos + 1]) + counter[pos + 1..]
    {
      IncPrefix(s, pos);
      IncOne(counter, pos);
      if counter[pos] != 0 {
        assert counter[..] == counter[..pos] + counter[pos..];
        break;
      }
      pos := pos - 1;
    }
  }
}
