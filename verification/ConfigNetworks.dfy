/**
 Configured networks and their priority index (hostap08/wpa_supplicant/config.c): every network is on the
 next list and on one pnext chain; pssid holds the heads of the chains.  Allocation succeeds.
 */
module ConfigNetworks {
  import opened Lists
  import opened Priority

  class Ssid {
    const id: int
    var priority: int
    var next: Ssid?
    var pnext: Ssid?

    constructor (id: int)
      ensures this.id == id && priority == 0 && next == null && pnext == null
    {
      this.id := id;
      priority := 0;
      next := null;
      pnext := null;
    }
  }

  predicate DistinctIds(a: Ssid, b: Ssid) { a.id != b.id }

  function Following(s: seq<Ssid>, k: nat): Ssid?
    requires k <= |s|
  {
    if k < |s| then s[k] else null
  }

  /** The nodes of a chain, with the last one ending it. */
  ghost predicate Chained(s: seq<Ssid>, frame: seq<Ssid>)
    reads frame`pnext
  {
    forall k :: 0 <= k < |s| ==> s[k] in frame && s[k].pnext == Following(s, k + 1)
  }

  lemma {:induction false} InConcat(cs: seq<Chain<Ssid>>, j: nat, x: Ssid)
    requires j < |cs| && x in cs[j].Nodes()
    ensures x in Concat(cs)
  {
    if j > 0 {
      InConcat(cs[1..], j - 1, x);
    }
  }

  ghost function Heads(cs: seq<Chain<Ssid>>): (r: seq<Ssid>)
    ensures |r| == |cs|
  {
    seq(|cs|, i requires 0 <= i < |cs| => cs[i].head)
  }

  lemma InsertHead(cs: seq<Chain<Ssid>>, i: nat, c: Chain<Ssid>)
    requires i <= |cs|
    ensures Heads(cs[..i] + [c] + cs[i..]) == Heads(cs)[..i] + [c.head] + Heads(cs)[i..]
    ensures forall d :: d in cs[..i] + [c] + cs[i..] ==> d == c || d in cs
  {
  }

  lemma RemoveOne(s: seq<Ssid>, k: nat)
    requires k < |s| && Pairwise(s, DistinctIds)
    ensures Pairwise(s[..k] + s[k + 1..], DistinctIds)
  {
    var r := s[..k] + s[k + 1..];
    forall i, j | 0 <= i < j < |r| ensures DistinctIds(r[i], r[j]) {
      assert DistinctIds(s[if i < k then i else i + 1], s[if j < k then j else j + 1]);
    }
  }

  class Config {
    var ssid: Ssid?
    var pssid: seq<Ssid>
    var numPrio: nat
    ghost var list: seq<Ssid>
    ghost var chains: seq<Chain<Ssid>>

    ghost predicate Listed()
      reads this`ssid, this`list, list`next
    {
      && ssid == Following(list, 0)
      && Pairwise(list, DistinctIds)
      && forall k :: 0 <= k < |list| ==> list[k].next == Following(list, k + 1)
    }

    ghost predicate Indexed()
      reads this`pssid, this`numPrio, this`list, this`chains, list`pnext
    {
      && numPrio == |pssid| && pssid == Heads(chains)
      && forall c :: c in chains ==> Chained(c.Nodes(), list)
    }

    ghost function Priorities(): Ssid -> int
      reads this`list, list`priority
    {
      var m := map s | s in list :: s.priority;
      (s: Ssid) => if s in m then m[s] else 0
    }

    /** The index agrees with the list. */
    ghost predicate Valid()
      reads this, list
    {
      Listed() && Indexed() && chains == Build(list, Priorities())
    }

    constructor ()
      ensures Valid() && list == []
    {
      ssid := null;
      pssid := [];
      numPrio := 0;
      list := [];
      chains := [];
    }

    method LastOf(prev: Ssid, ghost s: seq<Ssid>) returns (last: Ssid)
      requires s != [] && s[0] == prev && Chained(s, list)
      ensures last == s[|s| - 1]
    {
      last := prev;
      ghost var k := 0;
      while last.pnext != null
        invariant 0 <= k < |s| && last == s[k]
        decreases |s| - k
      {
        last := last.pnext;
        k := k + 1;
      }
    }

    lemma HeadListed(i: nat)
      requires Indexed() && i < |chains|
      ensures pssid[i] in list
    {
      assert chains[i] in chains && chains[i].Nodes()[0] == pssid[i];
    }

    lemma NotChained(s: Ssid)
      requires s !in Concat(chains)
      ensures forall j :: 0 <= j < |chains| ==> s !in chains[j].Nodes()
    {
      forall j | 0 <= j < |chains| ensures s !in chains[j].Nodes() {
        if s in chains[j].Nodes() {
          InConcat(chains, j, s);
        }
      }
    }

    lemma OtherChain(p: Ssid -> int, i: nat, j: nat, x: Ssid, y: Ssid)
      requires Grouped(chains, p) && i < |chains| && j < |chains| && i != j
      requires x in chains[i].Nodes() && y in chains[j].Nodes()
      ensures x != y
    {
      assert Uniform(chains[i], p) && Uniform(chains[j], p);
      assert i < j ==> Above(p)(chains[i], chains[j]);
      assert j < i ==> Above(p)(chains[j], chains[i]);
    }

    method AppendToChain(i: nat, s: Ssid, ghost p: Ssid -> int)
      requires Indexed() && Grouped(chains, p) && i < |chains|
      requires s in list && s.pnext == null && forall j :: 0 <= j < |chains| ==> s !in chains[j].Nodes()
      modifies this`chains, list`pnext
      ensures Indexed() && chains == old(chains)[i := old(chains)[i].Append(s)]
    {
      ghost var nodes := chains[i].Nodes();
      assert chains[i] in chains;
      var last := LastOf(pssid[i], nodes);
      forall j | 0 <= j < |chains| && j != i ensures last !in chains[j].Nodes() {
        if last in chains[j].Nodes() {
          OtherChain(p, i, j, last, last);
        }
      }
      LinkLast(i, last, s);
    }

    method LinkLast(ghost i: nat, last: Ssid, s: Ssid)
      requires Indexed() && i < |chains| && last in list && last == chains[i].Nodes()[|chains[i].Nodes()| - 1]
      requires forall j :: 0 <= j < |chains| && j != i ==> last !in chains[j].Nodes()
      requires s in list && s.pnext == null && s !in chains[i].Nodes()
      modifies this`chains, list`pnext
      ensures Indexed() && chains == old(chains)[i := old(chains)[i].Append(s)]
    {
      ghost var nodes := chains[i].Nodes();
      assert chains[i] in chains;
      last.pnext := s;
      assert Chained(nodes + [s], list);
      assert chains[i].Append(s).Nodes() == nodes + [s];
      chains := chains[i := chains[i].Append(s)];
      forall c | c in chains ensures Chained(c.Nodes(), list) {
        var j :| 0 <= j < |chains| && chains[j] == c;
        if j != i {
          assert old(chains)[j] in old(chains);
        }
      }
    }

    /** The chain for the priority of a network, or numPrio. */
    method FindChain(s: Ssid, ghost p: Ssid -> int) returns (prio: nat)
      requires Indexed() && s in list && forall x :: x in list ==> p(x) == x.priority
      ensures prio <= numPrio && (prio < numPrio ==> p(chains[prio].head) == p(s))
      ensures forall k :: 0 <= k < prio ==> p(chains[k].head) != p(s)
    {
      prio := 0;
      while prio < numPrio
        invariant 0 <= prio <= numPrio
        invariant forall k :: 0 <= k < prio ==> p(chains[k].head) != p(s)
      {
        HeadListed(prio);
        if pssid[prio].priority == s.priority {
          return;
        }
        prio := prio + 1;
      }
    }

    /** The position of the first head of lower priority. */
    method FindSlot(s: Ssid, ghost p: Ssid -> int) returns (prio: nat)
      requires Indexed() && s in list && forall x :: x in list ==> p(x) == x.priority
      requires forall k :: 0 <= k < |chains| ==> p(chains[k].head) != p(s)
      ensures prio <= numPrio && (prio < numPrio ==> p(chains[prio].head) < p(s))
      ensures forall k :: 0 <= k < prio ==> p(chains[k].head) > p(s)
    {
      prio := 0;
      while prio < numPrio
        invariant 0 <= prio <= numPrio
        invariant forall k :: 0 <= k < prio ==> p(chains[k].head) > p(s)
      {
        HeadListed(prio);
        if pssid[prio].priority < s.priority {
          break;
        }
        prio := prio + 1;
      }
    }

    /** First network for its priority: make room in the array of heads. */
    method InsertChain(s: Ssid, ghost p: Ssid -> int)
      requires Indexed() && Grouped(chains, p)
      requires s in list && s.pnext == null
      requires forall k :: 0 <= k < |chains| ==> p(chains[k].head) != p(s)
      requires forall x :: x in list ==> p(x) == x.priority
      modifies this`pssid, this`numPrio, this`chains
      ensures Indexed() && chains == Insert(old(chains), s, p)
    {
      var prio := FindSlot(s, p);
      InsertNewChain(chains, s, p, prio);
      pssid := pssid[..prio] + [s] + pssid[prio..];
      numPrio := numPrio + 1;
      ghost var c := Chain(s, []);
      assert Chained(c.Nodes(), list);
      InsertHead(chains, prio, c);
      chains := chains[..prio] + [c] + chains[prio..];
    }

    method AddPrioNetwork(s: Ssid, ghost p: Ssid -> int)
      requires Indexed() && Grouped(chains, p)
      requires s in list && s.pnext == null && s !in Concat(chains)
      requires forall x :: x in list ==> p(x) == x.priority
      modifies this`pssid, this`numPrio, this`chains, list`pnext
      ensures Indexed() && chains == Insert(old(chains), s, p)
    {
      var prio := FindChain(s, p);
      if prio < numPrio {
        InsertInChain(chains, s, p, prio);
        NotChained(s);
        AppendToChain(prio, s, p);
        return;
      }
      InsertChain(s, p);
    }

    /** Rebuild the index from the list. */
    method UpdatePrioList()
      requires Listed()
      modifies this`pssid, this`numPrio, this`chains, list`pnext
      ensures Valid()
    {
      Rebuild(Priorities());
    }

    method Rebuild(ghost p: Ssid -> int)
      requires Listed() && forall x :: x in list ==> p(x) == x.priority
      modifies this`pssid, this`numPrio, this`chains, list`pnext
      ensures Indexed() && chains == Build(list, p)
    {
      pssid := [];
      numPrio := 0;
      chains := [];
      var s := ssid;
      ghost var k := 0;
      while s != null
        invariant 0 <= k <= |list| && s == Following(list, k)
        invariant Indexed() && chains == Build(list[..k], p)
        decreases |list| - k
      {
        RebuildStep(s, k, p);
        s := s.next;
        k := k + 1;
      }
      assert list[..k] == list;
    }

    method RebuildStep(s: Ssid, ghost k: nat, ghost p: Ssid -> int)
      requires Indexed() && Pairwise(list, DistinctIds) && forall x :: x in list ==> p(x) == x.priority
      requires k < |list| && list[k] == s && chains == Build(list[..k], p)
      modifies this`pssid, this`numPrio, this`chains, list`pnext
      ensures Indexed() && chains == Build(list[..k + 1], p)
    {
      NotYetChained(k, p);
      NotChained(s);
      s.pnext := null;
      AddPrioNetwork(s, p);
      assert list[..k + 1][..k] == list[..k] && list[..k + 1][k] == s;
    }

    lemma NotYetChained(k: nat, p: Ssid -> int)
      requires Pairwise(list, DistinctIds) && k < |list| && chains == Build(list[..k], p)
      ensures Grouped(chains, p) && list[k] !in Concat(chains)
    {
      BuildIsStableSort(list[..k], p);
      StableSortPermutes(Concat(chains), list[..k], p);
      NotBefore(k);
      assert list[k] !in multiset(list[..k]);
    }

    lemma NotBefore(k: nat)
      requires Pairwise(list, DistinctIds) && k < |list|
      ensures list[k] !in list[..k]
    {
      forall j | 0 <= j < k ensures list[j] != list[k] {
        assert DistinctIds(list[j], list[k]);
      }
    }

    /** The heads have strictly decreasing priority and the chains are the stable descending sort of the list. */
    lemma IndexIsStableSort()
      requires Valid()
      ensures forall i, j :: 0 <= i < j < |pssid| ==> Priorities()(pssid[i]) > Priorities()(pssid[j])
      ensures StableSort(Concat(chains), list, Priorities())
      ensures multiset(Concat(chains)) == multiset(list)
    {
      var p := Priorities();
      BuildIsStableSort(list, p);
      StableSortPermutes(Concat(chains), list, p);
      forall i, j | 0 <= i < j < |pssid| ensures p(pssid[i]) > p(pssid[j]) {
        assert Above(p)(chains[i], chains[j]);
      }
    }

    // ---- Operations

    method GetNetwork(id: int) returns (s: Ssid?)
      requires Listed()
      ensures s == null <==> forall x :: x in list ==> x.id != id
      ensures s != null ==> s in list && s.id == id
    {
      s := ssid;
      ghost var k := 0;
      while s != null
        invariant 0 <= k <= |list| && s == Following(list, k)
        invariant forall j :: 0 <= j < k ==> list[j].id != id
        decreases |list| - k
      {
        if s.id == id {
          return;
        }
        s := s.next;
        k := k + 1;
      }
    }

    method LastNetwork() returns (id: int, last: Ssid?)
      requires Listed()
      ensures forall x :: x in list ==> x.id <= id
      ensures id == -1 || exists x :: x in list && x.id == id
      ensures if list == [] then last == null else last == list[|list| - 1]
    {
      id, last := -1, null;
      var s := ssid;
      ghost var k := 0;
      while s != null
        invariant 0 <= k <= |list| && s == Following(list, k)
        invariant id >= -1 && forall j :: 0 <= j < k ==> list[j].id <= id
        invariant id == -1 || exists x :: x in list && x.id == id
        invariant if k == 0 then last == null else last == list[k - 1]
        decreases |list| - k
      {
        if s.id > id {
          id := s.id;
        }
        last := s;
        s := s.next;
        k := k + 1;
      }
    }

    method AddNetwork() returns (s: Ssid)
      requires Listed()
      modifies this, list
      ensures Valid() && fresh(s) && list == old(list) + [s] && s.priority == 0
      ensures forall x :: x in old(list) ==> x.id < s.id && x.priority == old(x.priority)
      ensures s.id == 0 || exists x :: x in old(list) && s.id == x.id + 1
    {
      s := AppendNetwork();
      UpdatePrioList();
    }

    method AppendNetwork() returns (s: Ssid)
      requires Listed()
      modifies this`ssid, this`list, list`next
      ensures Listed() && fresh(s) && list == old(list) + [s] && s.priority == 0
      ensures forall x :: x in old(list) ==> x.id < s.id
      ensures s.id == 0 || exists x :: x in old(list) && s.id == x.id + 1
    {
      var id, last := LastNetwork();
      s := new Ssid(id + 1);
      Attach(s, last);
    }

    method Attach(s: Ssid, last: Ssid?)
      requires Listed() && s !in list && s.next == null && forall x :: x in list ==> DistinctIds(x, s)
      requires if list == [] then last == null else last == list[|list| - 1]
      modifies this`ssid, this`list, list`next
      ensures Listed() && list == old(list) + [s]
    {
      forall k | 0 <= k < |list| - 1 ensures list[k] != last {
        assert DistinctIds(list[k], list[|list| - 1]);
      }
      if last != null {
        last.next := s;
      } else {
        ssid := s;
      }
      PairwiseAppend(list, s, DistinctIds);
      list := list + [s];
    }

    method RemoveNetwork(id: int) returns (ok: bool)
      requires Listed()
      modifies this, list
      ensures Listed() && (ok ==> Valid()) && (ok <==> exists x :: x in old(list) && x.id == id)
      ensures if ok
        then exists k :: 0 <= k < |old(list)| && old(list)[k].id == id && list == old(list)[..k] + old(list)[k + 1..]
        else list == old(list) && unchanged(this) && unchanged(list)
      ensures forall x :: x in old(list) ==> x.priority == old(x.priority)
    {
      var s, prev;
      ghost var k;
      s, prev, k := FindWithPrev(id);
      if s == null {
        return false;
      }
      Detach(s, prev, k);
      UpdatePrioList();
      assert old(list)[k] in old(list);
      return true;
    }

    method FindWithPrev(id: int) returns (s: Ssid?, prev: Ssid?, ghost k: nat)
      requires Listed()
      ensures k <= |list| && s == Following(list, k) && (k < |list| ==> list[k].id == id)
      ensures forall j :: 0 <= j < k ==> list[j].id != id
      ensures if k == 0 then prev == null else prev == list[k - 1]
    {
      s, prev, k := ssid, null, 0;
      while s != null
        invariant 0 <= k <= |list| && s == Following(list, k)
        invariant forall j :: 0 <= j < k ==> list[j].id != id
        invariant if k == 0 then prev == null else prev == list[k - 1]
        decreases |list| - k
      {
        if s.id == id {
          return;
        }
        prev := s;
        s := s.next;
        k := k + 1;
      }
    }

    method Detach(s: Ssid, prev: Ssid?, ghost k: nat)
      requires Listed() && k < |list| && s == list[k]
      requires if k == 0 then prev == null else prev == list[k - 1]
      modifies this`ssid, this`list, list`next
      ensures Listed() && list == old(list)[..k] + old(list)[k + 1..]
    {
      forall j | 0 <= j < |list| && j != k - 1 ensures list[j] != prev {
        assert k > 0 && j < k - 1 ==> DistinctIds(list[j], list[k - 1]);
        assert k > 0 && k - 1 < j ==> DistinctIds(list[k - 1], list[j]);
      }
      if prev != null {
        prev.next := s.next;
      } else {
        ssid := s.next;
      }
      RemoveOne(list, k);
      list := list[..k] + list[k + 1..];
    }

    /** SET_NETWORK of the priority. */
    method SetPriority(s: Ssid, priority: int)
      requires Valid() && s in list
      modifies this, list
      ensures Valid() && list == old(list) && s.priority == priority
      ensures forall x :: x in list && x != s ==> x.priority == old(x.priority)
    {
      s.priority := priority;
      UpdatePrioList();
    }
  }
}
