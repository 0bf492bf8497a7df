/** RC4 as used by WEP and TKIP (wep_crypt in hostap08/wlantest/wep.c). */
module Rc4 {
  import opened Octets
  import opened Iteration

  /** The 8-bit cells of the RC4 state, as numbers. */
  type Cell = n: int | 0 <= n < 256

  function Wrap(n: int): Cell { n % 256 }

  type State = s: seq<Cell> | |s| == 256 witness seq(256, _ => 0)

  function Identity(): (s: State)
    ensures forall k :: 0 <= k < 256 ==> s[k] == k
  {
    seq(256, k requires 0 <= k < 256 => k)
  }

  function Swap<T>(s: seq<T>, i: nat, j: nat): (r: seq<T>)
    requires i < |s| && j < |s|
    ensures |r| == |s|
  {
    s[i := s[j]][j := s[i]]
  }

  /** Every octet value occurs in s as often as in the identity: exactly once. */
  ghost predicate IsPermutation(s: State) {
    multiset(s) == multiset(Identity())
  }

  lemma SwapPermutes<T>(s: seq<T>, i: nat, j: nat)
    requires i < |s| && j < |s|
    ensures multiset(Swap(s, i, j)) == multiset(s)
  {
  }

  // ---- Key schedule

  /** The key repeated over the 256 steps of the schedule. */
  function Repeat(key: seq<Cell>): (r: State)
    requires key != []
  {
    seq(256, k requires 0 <= k < 256 => key[k % |key|])
  }

  datatype Scheduler = Scheduler(key: State, s: State, i: nat, j: Cell) {
    function Next(): Scheduler {
      if i >= |s| then this else
      var j' := Wrap(j + s[i] + key[i]);
      Scheduler(key, Swap(s, i, j'), i + 1, j')
    }
  }

  function Scheduled(key: seq<Cell>, i: nat): Scheduler
    requires key != []
  {
    Iterate((m: Scheduler) => m.Next(), Scheduler(Repeat(key), Identity(), 0, 0), i)
  }

  lemma ScheduledNext(key: seq<Cell>, i: nat)
    requires key != []
    ensures Scheduled(key, i + 1) == Scheduled(key, i).Next()
  {
    IterateNext((m: Scheduler) => m.Next(), Scheduler(Repeat(key), Identity(), 0, 0), i);
  }

  function Setup(key: seq<Cell>): State
    requires key != []
  {
    Scheduled(key, |Identity()|).s
  }

  lemma SchedulerPermutes(m: Scheduler)
    ensures multiset(m.Next().s) == multiset(m.s)
  {
    if m.i < |m.s| {
      SwapPermutes(m.s, m.i, m.Next().j);
    }
  }

  lemma ScheduleKeepsPermutation(key: seq<Cell>, i: nat)
    requires key != []
    ensures IsPermutation(Scheduled(key, i).s)
  {
    forall m: Scheduler ensures multiset(m.Next().s) == multiset(m.s) {
      SchedulerPermutes(m);
    }
    IterateKeeps((m: Scheduler) => m.Next(), Scheduler(Repeat(key), Identity(), 0, 0), i, (m: Scheduler) => multiset(m.s));
  }

  // ---- Generation

  datatype Generator = Generator(s: State, i: Cell, j: Cell) {
    function Next(): Generator {
      var i' := Wrap(i + 1);
      var j' := Wrap(j + s[i']);
      Generator(Swap(s, i', j'), i', j')
    }

    function Output(): Cell {
      var sum: int := s[i] as int + s[j] as int;
      s[Wrap(sum)]
    }
  }

  /** The generator after n octets. */
  function After(g: Generator, n: nat): Generator {
    Iterate((h: Generator) => h.Next(), g, n)
  }

  lemma AfterNext(g: Generator, n: nat)
    ensures After(g, n + 1) == After(g, n).Next()
  {
    IterateNext((h: Generator) => h.Next(), g, n);
  }

  /** The first n octets of key stream. */
  function Stream(g: Generator, n: nat): (r: seq<Cell>)
    ensures |r| == n && forall k :: 0 <= k < n ==> r[k] == After(g, k + 1).Output()
  {
    seq(n, k requires 0 <= k < n => After(g, k + 1).Output())
  }

  lemma NextPermutes(g: Generator)
    ensures multiset(g.Next().s) == multiset(g.s)
  {
    SwapPermutes(g.s, g.Next().i, g.Next().j);
  }

  lemma GenerationPermutes(g: Generator, n: nat)
    ensures multiset(After(g, n).s) == multiset(g.s)
  {
    forall h: Generator ensures multiset(h.Next().s) == multiset(h.s) {
      NextPermutes(h);
    }
    IterateKeeps((h: Generator) => h.Next(), g, n, (h: Generator) => multiset(h.s));
  }

  /** The state is a permutation at every step of the key setup and after any number of generated octets. */
  lemma AlwaysPermutation(key: seq<Cell>, i: nat, n: nat)
    requires key != []
    ensures IsPermutation(Scheduled(key, i).s)
    ensures IsPermutation(After(Generator(Setup(key), 0, 0), n).s)
  {
    ScheduleKeepsPermutation(key, i);
    ScheduleKeepsPermutation(key, |Identity()|);
    GenerationPermutes(Generator(Setup(key), 0, 0), n);
  }

  // ---- The same, cell by cell

  /** The cells at a and b have changed places; the others stay. */
  predicate Exchanged(s: State, r: State, a: Cell, b: Cell) {
    r[a] == s[b] && r[b] == s[a] && forall k :: 0 <= k < 256 && k != a && k != b ==> r[k] == s[k]
  }

  lemma SwapIsExchange(s: State, a: Cell, b: Cell)
    ensures Exchanged(s, Swap(s, a, b), a, b)
  {
  }

  /** The states and indices of a key setup: 256 exchanges, from the state in which every cell holds its own number. */
  ghost predicate IsSetup(key: seq<Cell>, s: nat -> State, j: nat -> Cell)
    requires key != []
  {
    && (forall k :: 0 <= k < 256 ==> s(0)[k] == k) && j(0) == 0
    && forall i: nat :: i < 256 ==> IsSetupStep(key, s, j, i)
  }

  ghost predicate IsSetupStep(key: seq<Cell>, s: nat -> State, j: nat -> Cell, i: nat)
    requires key != [] && i < 256
  {
    j(i + 1) == (j(i) + s(i)[i] + key[i % |key|]) % 256 && Exchanged(s(i), s(i + 1), i, j(i + 1))
  }

  lemma {:induction false} ScheduledIs(key: seq<Cell>, i: nat)
    requires key != [] && i <= 256
    ensures Scheduled(key, i).i == i && Scheduled(key, i).key == Repeat(key)
  {
    if i > 0 {
      ScheduledIs(key, i - 1);
      ScheduledNext(key, i - 1);
    }
  }

  lemma SetupStepIs(key: seq<Cell>, i: nat)
    requires key != [] && i < 256
    ensures var m, n := Scheduled(key, i), Scheduled(key, i + 1);
      n.j == (m.j + m.s[i] + key[i % |key|]) % 256 && Exchanged(m.s, n.s, i, n.j)
  {
    ScheduledIs(key, i);
    ScheduledNext(key, i);
    SwapIsExchange(Scheduled(key, i).s, i, Scheduled(key, i + 1).j);
  }

  /** The key setup is such a sequence of exchanges. */
  lemma SetupIsExchanges(key: seq<Cell>) returns (s: nat -> State, j: nat -> Cell)
    requires key != []
    ensures IsSetup(key, s, j) && Setup(key) == s(256)
  {
    s, j := (i: nat) => Scheduled(key, i).s, (i: nat) => Scheduled(key, i).j;
    forall i: nat | i < 256 ensures IsSetupStep(key, s, j, i) {
      SetupStepIs(key, i);
    }
  }

  /** The states and indices of a generation, and what it puts out: the cell at the sum of the two exchanged cells. */
  ghost predicate IsGeneration(s: nat -> State, j: nat -> Cell, out: nat -> Cell) {
    j(0) == 0 && forall k: nat :: IsGenerationStep(s, j, out, k)
  }

  ghost predicate IsGenerationStep(s: nat -> State, j: nat -> Cell, out: nat -> Cell, k: nat) {
    var i, t := (k + 1) % 256, s(k + 1);
    && j(k + 1) == (j(k) + s(k)[i]) % 256 && Exchanged(s(k), t, i, j(k + 1))
    && out(k) == t[(t[i] as int + t[j(k + 1)] as int) % 256]
  }

  lemma {:induction false} AfterIndex(g: Generator, n: nat)
    requires g.i == 0
    ensures After(g, n).i == n % 256
  {
    if n > 0 {
      AfterIndex(g, n - 1);
      AfterNext(g, n - 1);
      assert n % 256 == ((n - 1) % 256 + 1) % 256;
    }
  }

  lemma GenerationStepIs(g: Generator, k: nat)
    requires g.i == 0
    ensures var i, h, n := (k + 1) % 256, After(g, k), After(g, k + 1);
      && n.j == (h.j + h.s[i]) % 256 && Exchanged(h.s, n.s, i, n.j)
      && n.Output() == n.s[(n.s[i] as int + n.s[n.j] as int) % 256]
  {
    AfterIndex(g, k + 1);
    AfterNext(g, k);
    SwapIsExchange(After(g, k).s, (k + 1) % 256, After(g, k + 1).j);
  }

  function States(g: Generator): nat -> State { (k: nat) => After(g, k).s }
  function Indices(g: Generator): nat -> Cell { (k: nat) => After(g, k).j }
  function Outputs(g: Generator): nat -> Cell { (k: nat) => After(g, k + 1).Output() }

  lemma AfterIsGeneration(g: Generator)
    requires g.i == 0 && g.j == 0
    ensures IsGeneration(States(g), Indices(g), Outputs(g)) && States(g)(0) == g.s
  {
    forall k: nat ensures IsGenerationStep(States(g), Indices(g), Outputs(g), k) {
      GenerationStepIs(g, k);
    }
  }

  /** The first n values of a sequence. */
  function Prefix(out: nat -> Cell, n: nat): (r: seq<Cell>)
    ensures |r| == n && forall k :: 0 <= k < n ==> r[k] == out(k)
  {
    seq(n, k requires 0 <= k < n => out(k))
  }

  lemma StreamIsOutputs(g: Generator, n: nat)
    ensures Stream(g, n) == Prefix(Outputs(g), n)
  {
  }

  /** The key stream is what such a generation puts out, from the state that the key setup leaves. */
  lemma StreamIsGeneration(key: seq<Cell>, n: nat) returns (s: nat -> State, j: nat -> Cell, out: nat -> Cell)
    requires key != []
    ensures IsGeneration(s, j, out) && s(0) == Setup(key)
    ensures KeyStream(key, n) == ToOctets(Prefix(out, n))
  {
    var g := Generator(Setup(key), 0, 0);
    s, j, out := States(g), Indices(g), Outputs(g);
    AfterIsGeneration(g);
    StreamIsOutputs(g, n);
  }

  // ---- States that are never reached

  /** The second index is one ahead of the first, on the cell that holds one. */
  predicate Finney(g: Generator) {
    g.j == (g.i + 1) % 256 && g.s[g.j] == 1
  }

  lemma FinneyIsClosed(g: Generator)
    ensures Finney(g.Next()) <==> Finney(g)
  {
  }

  /** The generator, started with both indices at zero, never gets into the short cycles of such states. */
  lemma {:induction false} FinneyIsNeverReached(s: State, n: nat)
    ensures !Finney(After(Generator(s, 0, 0), n))
  {
    if n > 0 {
      FinneyIsNeverReached(s, n - 1);
      AfterNext(Generator(s, 0, 0), n - 1);
      FinneyIsClosed(After(Generator(s, 0, 0), n - 1));
    }
  }

  function KeyStream(key: seq<Cell>, n: nat): (r: Octets)
    requires key != []
    ensures |r| == n
  {
    ToOctets(Stream(Generator(Setup(key), 0, 0), n))
  }

  function ToOctets(s: seq<Cell>): (r: Octets)
    ensures |r| == |s| && forall k :: 0 <= k < |s| ==> r[k] == s[k] as bv8
  {
    seq(|s|, k requires 0 <= k < |s| => s[k] as bv8)
  }

  function ToCells(s: Octets): (r: seq<Cell>)
    ensures |r| == |s| && forall k :: 0 <= k < |s| ==> r[k] == s[k] as int
  {
    seq(|s|, k requires 0 <= k < |s| => s[k] as int)
  }

  function Crypt(key: Octets, data: Octets): (r: Octets)
    requires key != []
    ensures |r| == |data|
  {
    Xor(data, KeyStream(ToCells(key), |data|))
  }

  lemma CryptInvolution(key: Octets, data: Octets)
    requires key != []
    ensures Crypt(key, Crypt(key, data)) == data
  {
    XorCancels(data, KeyStream(ToCells(key), |data|));
  }
}
