/** Facts that events make true and other events make false again. */
module Histories {

  /** It held when the first k events were over, or event k - 1 made it true; nothing has undone it since. */
  ghost predicate MadeAt(holds: nat -> bool, made: nat -> bool, undone: nat -> bool, n: nat, k: nat) {
    k <= n && (if k == 0 then holds(0) else made(k - 1)) && forall j: nat :: k <= j < n ==> !undone(j)
  }

  /** A fact holds after n events if and only if the start or one of them made it true and none since has undone it. */
  lemma {:induction false} HoldsIff(holds: nat -> bool, made: nat -> bool, undone: nat -> bool, n: nat)
    requires forall k: nat :: k < n ==> (holds(k + 1) <==> made(k) || (holds(k) && !undone(k)))
    ensures holds(n) <==> exists k: nat :: MadeAt(holds, made, undone, n, k)
    decreases n
  {
    if n == 0 {
      assert holds(0) <==> MadeAt(holds, made, undone, 0, 0);
    } else {
      var m := n - 1;
      HoldsIff(holds, made, undone, m);
      assert holds(m + 1) <==> made(m) || (holds(m) && !undone(m));
      if made(m) {
        assert MadeAt(holds, made, undone, n, n);
      } else if holds(n) {
        var k: nat :| MadeAt(holds, made, undone, m, k);
        assert MadeAt(holds, made, undone, n, k);
      }
      forall k: nat | MadeAt(holds, made, undone, n, k) ensures holds(n) {
        if k < n {
          assert MadeAt(holds, made, undone, m, k);
        }
      }
    }
  }
}
