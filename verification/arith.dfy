/** Facts about integer multiplication and Euclidean division that the
    solver does not find on its own. */
module Arith {

  lemma MulNonNegative(x: int, y: int)
    requires x >= 0 && y >= 0
    ensures x * y >= 0
  {
  }

  /** Division with remainder is unique. */
  lemma DivModUnique(y: int, n: int, a: int, b: int)
    requires n > 0 && y == a * n + b && 0 <= b < n
    ensures y % n == b
  {
    var q, r := y / n, y % n;
    assert (a - q) * n == r - b;
    if a - q >= 1 {
      MulNonNegative(a - q - 1, n);
    } else if a - q <= -1 {
      MulNonNegative(q - a - 1, n);
    }
  }

  /** Adding a multiple of `n` keeps the remainder. */
  lemma ModShift(k: int, p: int, n: int)
    requires n > 0 && p % n == 0
    ensures (k + p) % n == k % n
  {
    assert p == (p / n) * n;
    assert k + p == (k / n + p / n) * n + k % n;
    DivModUnique(k + p, n, k / n + p / n, k % n);
  }
}
