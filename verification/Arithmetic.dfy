/** Division facts with a variable divisor. */
module Arithmetic {

  /** A multiple of m that is smaller than m is zero. */
  lemma SmallMultiple(d: int, m: int)
    requires 0 - m < d * m < m
    ensures d == 0
  {
    assert d >= 1 ==> (d - 1) * m >= 0;
    assert d <= -1 ==> (-d - 1) * m >= 0;
  }

  lemma Remainder(q: nat, m: nat, r: nat)
    requires r < m
    ensures (q * m + r) % m == r
  {
    var x := q * m + r;
    assert x == x / m * m + x % m;
    assert (q - x / m) * m == q * m - x / m * m;
    SmallMultiple(q - x / m, m);
  }

  /** Remainders count up and start over. */
  lemma NextRemainder(n: nat, m: nat)
    requires m > 0
    ensures (n + 1) % m == if n % m + 1 == m then 0 else n % m + 1
  {
    var q, r := n / m, n % m;
    if r + 1 == m {
      assert n + 1 == (q + 1) * m + 0;
      Remainder(q + 1, m, 0);
    } else {
      assert n + 1 == q * m + (r + 1);
      Remainder(q, m, r + 1);
    }
  }
}
