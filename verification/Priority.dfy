/** Networks grouped by priority: the order that the pssid array of hostap08/wpa_supplicant/config.c stands for. */
module Priority {
  import opened Lists

  /** The head of a chain, which is in the array, and the networks that follow it. */
  datatype Chain<T> = Chain(head: T, rest: seq<T>) {
    function Nodes(): (r: seq<T>)
      ensures |r| == |rest| + 1
    {
      [head] + rest
    }

    function Append(x: T): Chain<T> { this.(rest := rest + [x]) }
  }

  /** Add to the chain of its priority, or start a new chain in descending order. */
  function Insert<T>(cs: seq<Chain<T>>, x: T, p: T -> int): seq<Chain<T>> {
    if cs == [] || p(cs[0].head) < p(x) then [Chain(x, [])] + cs
    else if p(cs[0].head) == p(x) then [cs[0].Append(x)] + cs[1..]
    else [cs[0]] + Insert(cs[1..], x, p)
  }

  /** The chains after adding the networks of the list in its order. */
  function Build<T>(list: seq<T>, p: T -> int): seq<Chain<T>> {
    if list == [] then [] else Insert(Build(list[..|list| - 1], p), list[|list| - 1], p)
  }

  function Concat<T>(cs: seq<Chain<T>>): seq<T> {
    if cs == [] then [] else cs[0].Nodes() + Concat(cs[1..])
  }

  ghost predicate Uniform<T>(c: Chain<T>, p: T -> int) {
    forall x :: x in c.rest ==> p(x) == p(c.head)
  }

  ghost function Above<T>(p: T -> int): (Chain<T>, Chain<T>) -> bool {
    (c: Chain<T>, d: Chain<T>) => p(c.head) > p(d.head)
  }

  /** One priority per chain, highest first. */
  ghost predicate Grouped<T>(cs: seq<Chain<T>>, p: T -> int) {
    (forall c :: c in cs ==> Uniform(c, p)) && Pairwise(cs, Above(p))
  }

  function With<T>(p: T -> int, v: int): T -> bool {
    (x: T) => p(x) == v
  }

  ghost function Descending<T>(p: T -> int): (T, T) -> bool {
    (x: T, y: T) => p(x) >= p(y)
  }

  /** s is the stable descending sort of the list: in order, and every priority keeps its networks in list order. */
  ghost predicate StableSort<T>(s: seq<T>, list: seq<T>, p: T -> int) {
    Pairwise(s, Descending(p)) && forall v :: Keep(s, With(p, v)) == Keep(list, With(p, v))
  }

  lemma GroupedRest<T>(cs: seq<Chain<T>>, p: T -> int)
    requires cs != [] && Grouped(cs, p)
    ensures Grouped(cs[1..], p)
    ensures forall c :: c in cs[1..] ==> p(c.head) < p(cs[0].head)
    ensures forall x :: x in Concat(cs[1..]) ==> p(x) < p(cs[0].head)
  {
    var rest := cs[1..];
    forall i, j | 0 <= i < j < |rest| ensures Above(p)(rest[i], rest[j]) {
      assert Above(p)(cs[i + 1], cs[j + 1]);
    }
    forall c | c in rest ensures p(c.head) < p(cs[0].head) {
      var k :| 0 <= k < |rest| && rest[k] == c;
      assert Above(p)(cs[0], cs[k + 1]);
    }
    forall x | x in Concat(rest) ensures p(x) < p(cs[0].head) {
      var c := ConcatMember(rest, x);
      assert Uniform(c, p);
    }
  }

  lemma {:induction false} ConcatMember<T>(cs: seq<Chain<T>>, x: T) returns (c: Chain<T>)
    requires x in Concat(cs)
    ensures c in cs && x in c.Nodes()
  {
    if x in cs[0].Nodes() {
      c := cs[0];
    } else {
      c := ConcatMember(cs[1..], x);
    }
  }

  lemma GroupedCons<T>(c: Chain<T>, cs: seq<Chain<T>>, p: T -> int)
    requires Grouped(cs, p) && Uniform(c, p) && forall d :: d in cs ==> p(d.head) < p(c.head)
    ensures Grouped([c] + cs, p)
  {
    var r := [c] + cs;
    forall i, j | 0 <= i < j < |r| ensures Above(p)(r[i], r[j]) {
      if i == 0 {
        assert r[j] in cs;
      } else {
        assert Above(p)(cs[i - 1], cs[j - 1]);
      }
    }
  }

  lemma {:induction false} InsertHeads<T>(cs: seq<Chain<T>>, x: T, p: T -> int, v: int)
    requires (forall c :: c in cs ==> p(c.head) < v) && p(x) < v
    ensures forall c :: c in Insert(cs, x, p) ==> p(c.head) < v
  {
    if cs != [] {
      InsertHeads(cs[1..], x, p, v);
    }
  }

  lemma {:induction false} InsertGrouped<T>(cs: seq<Chain<T>>, x: T, p: T -> int)
    requires Grouped(cs, p)
    ensures Grouped(Insert(cs, x, p), p)
  {
    if cs == [] {
    } else {
      GroupedRest(cs, p);
      if p(cs[0].head) < p(x) {
        forall d | d in cs ensures p(d.head) < p(x) {
          assert d == cs[0] || d in cs[1..];
        }
        GroupedCons(Chain(x, []), cs, p);
      } else if p(cs[0].head) == p(x) {
        assert Uniform(cs[0], p);
        GroupedCons(cs[0].Append(x), cs[1..], p);
      } else {
        InsertGrouped(cs[1..], x, p);
        InsertHeads(cs[1..], x, p, p(cs[0].head));
        GroupedCons(cs[0], Insert(cs[1..], x, p), p);
      }
    }
  }

  lemma AtMostHead<T>(cs: seq<Chain<T>>, p: T -> int)
    requires cs != [] && Grouped(cs, p)
    ensures forall x :: x in Concat(cs) ==> p(x) <= p(cs[0].head)
  {
    GroupedRest(cs, p);
    assert Uniform(cs[0], p);
  }

  lemma Commute<T>(s: seq<T>, x: T, p: T -> int, v: int)
    requires forall y :: y in s ==> p(y) < p(x)
    ensures Keep([x], With(p, v)) + Keep(s, With(p, v)) == Keep(s, With(p, v)) + Keep([x], With(p, v))
  {
    if p(x) == v {
      KeepNone(s, With(p, v));
    } else {
      KeepNone([x], With(p, v));
    }
  }

  lemma {:induction false} InsertKeeps<T>(cs: seq<Chain<T>>, x: T, p: T -> int, v: int)
    requires Grouped(cs, p)
    ensures Keep(Concat(Insert(cs, x, p)), With(p, v)) == Keep(Concat(cs), With(p, v)) + Keep([x], With(p, v))
  {
    var q := With(p, v);
    if cs == [] {
      assert Concat([Chain(x, [])]) == [x];
    } else if p(cs[0].head) < p(x) {
      assert ([Chain(x, [])] + cs)[1..] == cs;
      KeepConcat([x], Concat(cs), q);
      AtMostHead(cs, p);
      Commute(Concat(cs), x, p, v);
    } else {
      var nodes, rest := cs[0].Nodes(), cs[1..];
      GroupedRest(cs, p);
      KeepConcat(nodes, Concat(rest), q);
      if p(cs[0].head) == p(x) {
        InsertKeepsHead(cs[0], rest, x, p, v);
      } else {
        InsertKeeps(rest, x, p, v);
        assert ([cs[0]] + Insert(rest, x, p))[1..] == Insert(rest, x, p);
        KeepConcat(nodes, Concat(Insert(rest, x, p)), q);
        Associative(Keep(nodes, q), Keep(Concat(rest), q), Keep([x], q));
      }
    }
  }

  lemma InsertKeepsHead<T>(c: Chain<T>, rest: seq<Chain<T>>, x: T, p: T -> int, v: int)
    requires forall y :: y in Concat(rest) ==> p(y) < p(x)
    ensures var q := With(p, v);
      Keep(Concat([c.Append(x)] + rest), q) == Keep(c.Nodes(), q) + Keep(Concat(rest), q) + Keep([x], q)
  {
    var q, nodes := With(p, v), c.Nodes();
    assert ([c.Append(x)] + rest)[1..] == rest;
    assert c.Append(x).Nodes() == nodes + [x];
    KeepConcat(nodes + [x], Concat(rest), q);
    KeepConcat(nodes, [x], q);
    Commute(Concat(rest), x, p, v);
    Associative(Keep(nodes, q), Keep([x], q), Keep(Concat(rest), q));
    Associative(Keep(nodes, q), Keep(Concat(rest), q), Keep([x], q));
  }

  lemma {:induction false} BuildGrouped<T>(list: seq<T>, p: T -> int)
    ensures Grouped(Build(list, p), p)
  {
    if list != [] {
      BuildGrouped(list[..|list| - 1], p);
      InsertGrouped(Build(list[..|list| - 1], p), list[|list| - 1], p);
    }
  }

  lemma {:induction false} BuildKeeps<T>(list: seq<T>, p: T -> int, v: int)
    ensures Keep(Concat(Build(list, p)), With(p, v)) == Keep(list, With(p, v))
  {
    if list != [] {
      var init, x := list[..|list| - 1], list[|list| - 1];
      BuildGrouped(init, p);
      BuildKeeps(init, p, v);
      InsertKeeps(Build(init, p), x, p, v);
      KeepConcat(init, [x], With(p, v));
      assert list == init + [x];
    }
  }

  lemma {:induction false} GroupedDescending<T>(cs: seq<Chain<T>>, p: T -> int)
    requires Grouped(cs, p)
    ensures Pairwise(Concat(cs), Descending(p))
  {
    if cs != [] {
      GroupedRest(cs, p);
      GroupedDescending(cs[1..], p);
      assert Uniform(cs[0], p);
      JoinDescending(cs[0].Nodes(), Concat(cs[1..]), p, p(cs[0].head));
    }
  }

  lemma JoinDescending<T>(a: seq<T>, b: seq<T>, p: T -> int, v: int)
    requires Pairwise(b, Descending(p))
    requires (forall x :: x in a ==> p(x) == v) && forall x :: x in b ==> p(x) < v
    ensures Pairwise(a + b, Descending(p))
  {
    var s := a + b;
    forall i, j | 0 <= i < j < |s| ensures Descending(p)(s[i], s[j]) {
      if i >= |a| {
        assert Descending(p)(b[i - |a|], b[j - |a|]);
      } else {
        assert s[i] in a && (s[j] in a || s[j] in b);
      }
    }
  }

  /** The concatenated chains are the stable descending sort of the list. */
  lemma BuildIsStableSort<T>(list: seq<T>, p: T -> int)
    ensures Grouped(Build(list, p), p)
    ensures StableSort(Concat(Build(list, p)), list, p)
  {
    BuildGrouped(list, p);
    GroupedDescending(Build(list, p), p);
    forall v ensures Keep(Concat(Build(list, p)), With(p, v)) == Keep(list, With(p, v)) {
      BuildKeeps(list, p, v);
    }
  }

  // ---- There is only one stable sort, and it is a permutation

  lemma {:induction false} KeepCount<T>(s: seq<T>, q: T -> bool, x: T)
    requires q(x)
    ensures multiset(Keep(s, q))[x] == multiset(s)[x]
  {
    if s != [] {
      KeepCount(s[1..], q, x);
      assert s == [s[0]] + s[1..];
    }
  }

  lemma StableSortPermutes<T>(s: seq<T>, list: seq<T>, p: T -> int)
    requires StableSort(s, list, p)
    ensures multiset(s) == multiset(list)
  {
    forall x ensures multiset(s)[x] == multiset(list)[x] {
      KeepCount(s, With(p, p(x)), x);
      KeepCount(list, With(p, p(x)), x);
    }
  }

  lemma HeadAtLeast<T>(a: seq<T>, b: seq<T>, p: T -> int)
    requires Pairwise(a, Descending(p)) && b != [] && Keep(a, With(p, p(b[0]))) == Keep(b, With(p, p(b[0])))
    ensures a != [] && p(a[0]) >= p(b[0])
  {
    var q := With(p, p(b[0]));
    KeepMembers(b, q, b[0]);
    KeepMembers(a, q, b[0]);
    var k :| 0 <= k < |a| && a[k] == b[0];
    assert k > 0 ==> Descending(p)(a[0], a[k]);
  }

  lemma {:induction false} StableSortUnique<T>(a: seq<T>, b: seq<T>, p: T -> int)
    requires Pairwise(a, Descending(p)) && Pairwise(b, Descending(p))
    requires forall v :: Keep(a, With(p, v)) == Keep(b, With(p, v))
    ensures a == b
    decreases |a| + |b|
  {
    if a != [] || b != [] {
      if a != [] {
        HeadAtLeast(b, a, p);
      }
      if b != [] {
        HeadAtLeast(a, b, p);
      }
      var v := p(a[0]);
      assert Keep(a, With(p, v))[0] == a[0] && Keep(b, With(p, v))[0] == b[0];
      forall w ensures Keep(a[1..], With(p, w)) == Keep(b[1..], With(p, w)) {
        if w == v {
          assert Keep(a[1..], With(p, w)) == Keep(a, With(p, w))[1..];
          assert Keep(b[1..], With(p, w)) == Keep(b, With(p, w))[1..];
        } else {
          assert Keep(a[1..], With(p, w)) == Keep(a, With(p, w));
          assert Keep(b[1..], With(p, w)) == Keep(b, With(p, w));
        }
      }
      TailDescending(a, p);
      TailDescending(b, p);
      StableSortUnique(a[1..], b[1..], p);
    }
  }

  lemma TailDescending<T>(a: seq<T>, p: T -> int)
    requires a != [] && Pairwise(a, Descending(p))
    ensures Pairwise(a[1..], Descending(p))
  {
    var s := a[1..];
    forall i, j | 0 <= i < j < |s| ensures Descending(p)(s[i], s[j]) {
      assert s[i] == a[i + 1] && s[j] == a[j + 1];
    }
  }

  // ---- Where Insert puts a network

  lemma {:induction false} InsertInChain<T>(cs: seq<Chain<T>>, x: T, p: T -> int, i: nat)
    requires Grouped(cs, p) && i < |cs| && p(cs[i].head) == p(x)
    ensures Insert(cs, x, p) == cs[i := cs[i].Append(x)]
  {
    if i > 0 {
      GroupedRest(cs, p);
      assert cs[1..][i - 1] == cs[i];
      InsertInChain(cs[1..], x, p, i - 1);
      assert cs[1..][i - 1] in cs[1..];
      assert cs[i := cs[i].Append(x)] == [cs[0]] + cs[1..][i - 1 := cs[i].Append(x)];
    }
  }

  lemma {:induction false} InsertNewChain<T>(cs: seq<Chain<T>>, x: T, p: T -> int, i: nat)
    requires Grouped(cs, p) && i <= |cs| && forall k :: 0 <= k < i ==> p(cs[k].head) > p(x)
    requires i < |cs| ==> p(cs[i].head) < p(x)
    ensures Insert(cs, x, p) == cs[..i] + [Chain(x, [])] + cs[i..]
  {
    if i > 0 {
      var rest := cs[1..];
      GroupedRest(cs, p);
      forall k | 0 <= k < i - 1 ensures p(rest[k].head) > p(x) {
        assert rest[k] == cs[k + 1];
      }
      InsertNewChain(rest, x, p, i - 1);
      assert cs[..i] + [Chain(x, [])] + cs[i..] == [cs[0]] + (rest[..i - 1] + [Chain(x, [])] + rest[i - 1..]);
    }
  }
}
