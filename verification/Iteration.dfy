/** Applying a function a number of times. */
module Iteration {

  function Iterate<T>(f: T -> T, x: T, n: nat): T
    decreases n
  {
    if n == 0 then x else Iterate(f, f(x), n - 1)
  }

  lemma {:induction false} IterateNext<T>(f: T -> T, x: T, n: nat)
    ensures Iterate(f, x, n + 1) == f(Iterate(f, x, n))
    decreases n
  {
    if n > 0 {
      IterateNext(f, f(x), n - 1);
    }
  }

  lemma {:induction false} IterateSplit<T>(f: T -> T, x: T, i: nat, j: nat)
    ensures Iterate(f, x, i + j) == Iterate(f, Iterate(f, x, i), j)
    decreases i
  {
    if i > 0 {
      IterateSplit(f, f(x), i - 1, j);
    }
  }

  /** What one application keeps, any number of them keeps. */
  lemma {:induction false} IterateKeeps<T(!new), V>(f: T -> T, x: T, n: nat, measure: T -> V)
    requires forall y :: measure(f(y)) == measure(y)
    ensures measure(Iterate(f, x, n)) == measure(x)
    decreases n
  {
    if n > 0 {
      IterateKeeps(f, f(x), n - 1, measure);
    }
  }
}
