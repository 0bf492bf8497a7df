/** Order-preserving selection from a list, and relations between the elements of a list. */
module Lists {

  /** The elements that satisfy p, in their order. */
  function Keep<T>(s: seq<T>, p: T -> bool): (r: seq<T>)
    ensures |r| <= |s|
  {
    if s == [] then [] else (if p(s[0]) then [s[0]] else []) + Keep(s[1..], p)
  }

  /** r holds between every element and every later one. */
  ghost predicate Pairwise<T>(s: seq<T>, r: (T, T) -> bool) {
    forall i, j :: 0 <= i < j < |s| ==> r(s[i], s[j])
  }

  predicate Less(i: nat, j: nat) { i < j }

  lemma {:induction false} KeepMembers<T>(s: seq<T>, p: T -> bool, x: T)
    ensures x in Keep(s, p) <==> x in s && p(x)
  {
    if s != [] {
      KeepMembers(s[1..], p, x);
      assert s == [s[0]] + s[1..];
    }
  }

  lemma Associative<T>(a: seq<T>, b: seq<T>, c: seq<T>)
    ensures (a + b) + c == a + (b + c)
  {
  }

  lemma {:induction false} KeepConcat<T>(a: seq<T>, b: seq<T>, p: T -> bool)
    ensures Keep(a + b, p) == Keep(a, p) + Keep(b, p)
  {
    if a == [] {
      assert a + b == b;
    } else {
      var c := a + b;
      assert c[0] == a[0] && c[1..] == a[1..] + b;
      KeepConcat(a[1..], b, p);
      Associative(if p(a[0]) then [a[0]] else [], Keep(a[1..], p), Keep(b, p));
    }
  }

  lemma {:induction false} KeepAll<T>(s: seq<T>, p: T -> bool)
    requires forall x :: x in s ==> p(x)
    ensures Keep(s, p) == s
  {
    if s != [] {
      KeepAll(s[1..], p);
    }
  }

  lemma {:induction false} KeepNone<T>(s: seq<T>, p: T -> bool)
    requires forall x :: x in s ==> !p(x)
    ensures Keep(s, p) == []
  {
    if s != [] {
      KeepNone(s[1..], p);
    }
  }

  lemma {:induction false} KeepPairwise<T>(s: seq<T>, p: T -> bool, r: (T, T) -> bool)
    requires Pairwise(s, r)
    ensures Pairwise(Keep(s, p), r)
  {
    if s != [] {
      var rest := Keep(s[1..], p);
      KeepPairwise(s[1..], p, r);
      forall x | x in rest ensures r(s[0], x) {
        KeepMembers(s[1..], p, x);
        var k :| 0 <= k < |s[1..]| && s[1..][k] == x;
        assert x == s[k + 1];
      }
    }
  }

  lemma PairwiseAppend<T>(s: seq<T>, y: T, r: (T, T) -> bool)
    requires Pairwise(s, r) && forall x :: x in s ==> r(x, y)
    ensures Pairwise(s + [y], r)
  {
  }

  /** Removing the one element that fails p takes out its position. */
  lemma {:induction false} KeepButOne<T>(s: seq<T>, i: nat, p: T -> bool)
    requires i < |s| && !p(s[i]) && forall k :: 0 <= k < |s| && k != i ==> p(s[k])
    ensures Keep(s, p) == s[..i] + s[i + 1..]
  {
    if i == 0 {
      KeepAll(s[1..], p);
    } else {
      KeepButOne(s[1..], i - 1, p);
      assert s[..i] == [s[0]] + s[1..][..i - 1];
      assert s[i + 1..] == s[1..][i..];
    }
  }
}
