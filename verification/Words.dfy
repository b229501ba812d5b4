/** Unsigned 64-bit words. */
module Words {
  import opened Arithmetic

  const U64 := 0x1_0000_0000_0000_0000

  /** Arithmetic on words wraps around. */
  function Wrap(x: nat): nat {
    x % U64
  }

  lemma NoWrap(x: nat)
    requires x < U64
    ensures Wrap(x) == x
  {
  }

  lemma WrapShrinks(x: nat)
    ensures Wrap(x) <= x
  {
  }

  lemma WrapPast(s: nat)
    requires s < U64
    ensures Wrap(U64 + s) == s
  {
  }

  /** Wrapping early makes no difference. */
  lemma WrapTwice(x: nat, i: nat)
    ensures Wrap(Wrap(x) + i) == Wrap(x + i)
  {
    var q, y := x / U64, Wrap(x) + i;
    DivModOf(x + i, q + y / U64, y % U64, U64);
  }

  /** Wrapping keeps the remainder by any divisor of the word size. */
  lemma WrapKeepsResidue(x: nat, n: nat)
    requires n > 0 && (x < U64 || U64 % n == 0)
    ensures Wrap(x) % n == x % n
  {
    if x < U64 {
      NoWrap(x);
    } else {
      var y, q, d := Wrap(x), x / U64, U64 / n;
      Split(U64, n);
      Split(x, U64);
      Split(y, n);
      Regrouped(q, d, n, U64);
      Distribute(y / n, -(q * d), n);
      DivModOf(x, y / n + q * d, y % n, n);
    }
  }

  lemma Regrouped(q: nat, d: nat, n: nat, u: nat)
    requires u == d * n
    ensures q * u == q * d * n
  {
  }
}
