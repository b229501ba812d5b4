/** Division with remainder, in the form the proofs use it. */
module Arithmetic {

  lemma MultipleGrows(d: int, n: int)
    requires n > 0
    ensures d >= 1 ==> d * n >= n
    ensures d <= -1 ==> d * n <= -n
    ensures d == 0 ==> d * n == 0
  {
    if d >= 1 {
      assert (d - 1) * n >= 0;
    } else if d <= -1 {
      assert (-1 - d) * n >= 0;
    }
  }

  lemma Distribute(a: int, b: int, n: int)
    ensures (a - b) * n == a * n - b * n && (a + 1) * n == a * n + n
  {
  }

  lemma Split(p: nat, n: nat)
    requires n > 0
    ensures p == p / n * n + p % n
  {
  }

  /** Quotient and remainder are the only way to write a number as a multiple plus less than `n`. */
  lemma DivModOf(x: nat, q: int, r: nat, n: nat)
    requires r < n && x == q * n + r
    ensures x / n == q && x % n == r
  {
    Split(x, n);
    Distribute(x / n, q, n);
    MultipleGrows(x / n - q, n);
  }

  /** Positions less than a full turn apart have different remainders. */
  lemma ModApart(p: nat, q: nat, n: nat)
    requires p < q < p + n
    ensures p % n != q % n
  {
    Split(p, n);
    Split(q, n);
    Distribute(q / n, p / n, n);
    MultipleGrows(q / n - p / n, n);
  }

  lemma ModStep(p: nat, n: nat)
    requires n > 0
    ensures (p + n) % n == p % n
  {
    Split(p, n);
    Distribute(p / n, 0, n);
    DivModOf(p + n, p / n + 1, p % n, n);
  }
}
