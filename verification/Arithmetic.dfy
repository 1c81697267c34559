/** Go's 64-bit integers, and facts about Euclidean division that the solver does not find unaided. */
module Arithmetic {
  const TWO_64: int := 0x1_0000_0000_0000_0000

  type uint64 = x: int | 0 <= x < 0x1_0000_0000_0000_0000

  lemma MulAtLeast(n: nat, d: int)
    ensures d >= 1 ==> n * d >= n
    ensures d <= -1 ==> n * d <= -(n as int)
  {
  }

  /** A decomposition into multiple and remainder is the one that / and % compute. */
  lemma DivModUnique(x: int, q: int, r: int, n: nat)
    requires 0 <= r < n && x == n * q + r
    ensures x / n == q && x % n == r
  {
    assert x == n * (x / n) + x % n;
    assert n * (q - x / n) == x % n - r;
    MulAtLeast(n, q - x / n);
  }

  lemma ModStep(x: int, d: nat, n: nat)
    requires 0 < d < n
    ensures x % n != (x + d) % n
  {
    var q := (x + d) / n - x / n;
    assert n * q == d + x % n - (x + d) % n;
    MulAtLeast(n, q);
  }

  lemma ModShift(x: int, q: int, n: nat)
    requires n > 0
    ensures (x + n * q) % n == x % n
  {
    assert x + n * q == n * (x / n + q) + x % n;
    DivModUnique(x + n * q, x / n + q, x % n, n);
  }
}
