/** Remainders, from the uniqueness of division. */
module Modular {

  lemma NextMod(i: nat, n: nat)
    requires n > 0
    ensures (i + 1) % n == if i % n + 1 >= n then 0 else i % n + 1
  {
    var q, r := i / n, i % n;
    assert i == n * q + r;
    if r + 1 < n {
      UniqueRemainder(i + 1, n, q, r + 1);
    } else {
      assert i + 1 == n * (q + 1);
      UniqueRemainder(i + 1, n, q + 1, 0);
    }
  }

  lemma UniqueRemainder(x: nat, n: nat, q: nat, r: nat)
    requires n > 0 && x == n * q + r && r < n
    ensures x % n == r
  {
    var d := q - x / n;
    assert n * d == x % n - r by { assert n * d == n * q - n * (x / n); }
    if d >= 1 {
      MulAtLeast(n, d);
    } else if d <= -1 {
      MulAtLeast(n, -d);
    }
  }

  lemma Division(x: nat, n: nat)
    requires n > 0
    ensures x == n * (x / n) + x % n && 0 <= x % n < n
  {
  }

  lemma MulAssociative(n: nat, m: nat, q: nat)
    ensures (n * m) * q == n * (m * q)
  {
  }

  lemma MulDistributes(n: nat, a: nat, b: nat)
    ensures n * a + n * b == n * (a + b)
  {
  }

  lemma NestedRemainder(x: nat, n: nat, m: nat, k: nat, q: nat, r: nat, s: nat, t: nat)
    requires k == n * m && x == k * q + r && r == n * s + t && t < n
    ensures x % n == t
  {
    MulAssociative(n, m, q);
    MulDistributes(n, m * q, s);
    UniqueRemainder(x, n, m * q + s, t);
  }

  /** The remainder for a divisor can be taken from the remainder for a multiple of it. */
  lemma ModOfMultiple(x: nat, n: nat, m: nat, k: nat)
    requires n > 0 && k == n * m && k > 0
    ensures (x % k) % n == x % n
  {
    Division(x, k);
    Division(x % k, n);
    NestedRemainder(x, n, m, k, x / k, x % k, (x % k) / n, (x % k) % n);
  }

  lemma MulAtLeast(n: nat, d: int)
    requires d >= 1
    ensures n * d >= n
  {
  }

  lemma SameRemainder(a: nat, b: nat, m: nat)
    requires m > 0 && a <= b < a + m && a % m == b % m
    ensures a == b
  {
    var d := b / m - a / m;
    assert b - a == m * d by { assert m * d == m * (b / m) - m * (a / m); }
    if d >= 1 {
      MulAtLeast(m, d);
    } else if d <= -1 {
      MulAtLeast(m, -d);
    }
  }

  /** Every remainder occurs among m successive numbers. */
  lemma HitsRemainder(a: nat, m: nat, r: nat) returns (b: nat)
    requires r < m
    ensures a <= b < a + m && b % m == r
  {
    var q, s := a / m, a % m;
    assert a == m * q + s;
    if s <= r {
      b := m * q + r;
      UniqueRemainder(b, m, q, r);
    } else {
      b := m * (q + 1) + r;
      assert m * (q + 1) == m * q + m;
      UniqueRemainder(b, m, q + 1, r);
    }
  }

  function Successor(j: nat, m: nat): nat {
    if j + 1 >= m then 0 else j + 1
  }

  /** The position k places after j on a circle of m places. */
  function Rotate(j: nat, k: nat, m: nat): (r: nat)
    requires m > 0
    ensures r < m
  {
    (j + k) % m
  }

  lemma RotateStep(j: nat, k: nat, m: nat)
    requires j < m
    ensures Rotate(j, 0, m) == j && Rotate(j, k + 1, m) == Successor(Rotate(j, k, m), m)
  {
    NextMod(j + k, m);
    assert m * 0 == 0;
    UniqueRemainder(j, m, 0, j);
  }
}
