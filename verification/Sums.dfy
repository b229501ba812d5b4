/** Finite sums over sequences, the bookkeeping vocabulary of the load balancing models. */
module Sums {

  /** The sum of the first `n` elements. */
  function SumTo(s: seq<int>, n: nat): int
    requires n <= |s|
  {
    if n == 0 then 0 else SumTo(s, n - 1) + s[n - 1]
  }

  function Sum(s: seq<int>): int {
    SumTo(s, |s|)
  }

  lemma {:induction false} SumToUpdate(s: seq<int>, i: nat, v: int, n: nat)
    requires i < |s| && n <= |s|
    ensures SumTo(s[i := v], n) == SumTo(s, n) + if i < n then v - s[i] else 0
  {
    if n == 0 {
    } else {
      SumToUpdate(s, i, v, n - 1);
    }
  }

  lemma SumUpdate(s: seq<int>, i: nat, v: int)
    requires i < |s|
    ensures Sum(s[i := v]) == Sum(s) - s[i] + v
  {
    SumToUpdate(s, i, v, |s|);
  }

  lemma {:induction false} SumToPointwise(a: seq<int>, b: seq<int>, c: seq<int>, n: nat)
    requires |a| == |b| == |c| && n <= |a|
    requires forall i :: 0 <= i < |a| ==> c[i] == a[i] + b[i]
    ensures SumTo(c, n) == SumTo(a, n) + SumTo(b, n)
  {
    if n == 0 {
    } else {
      SumToPointwise(a, b, c, n - 1);
    }
  }

  lemma SumPointwise(a: seq<int>, b: seq<int>, c: seq<int>)
    requires |a| == |b| == |c|
    requires forall i :: 0 <= i < |a| ==> c[i] == a[i] + b[i]
    ensures Sum(c) == Sum(a) + Sum(b)
  {
    SumToPointwise(a, b, c, |a|);
  }

  lemma {:induction false} SumToScaled(a: seq<int>, k: int, b: seq<int>, n: nat)
    requires |a| == |b| && n <= |a|
    requires forall i :: 0 <= i < |a| ==> b[i] == k * a[i]
    ensures SumTo(b, n) == k * SumTo(a, n)
  {
    if n == 0 {
    } else {
      SumToScaled(a, k, b, n - 1);
      assert k * (SumTo(a, n - 1) + a[n - 1]) == k * SumTo(a, n - 1) + k * a[n - 1];
    }
  }

  lemma SumScaled(a: seq<int>, k: int, b: seq<int>)
    requires |a| == |b|
    requires forall i :: 0 <= i < |a| ==> b[i] == k * a[i]
    ensures Sum(b) == k * Sum(a)
  {
    SumToScaled(a, k, b, |a|);
  }

  lemma {:induction false} SumToMonotone(a: seq<int>, b: seq<int>, n: nat)
    requires |a| == |b| && n <= |a|
    requires forall i :: 0 <= i < |a| ==> a[i] <= b[i]
    ensures SumTo(a, n) <= SumTo(b, n)
  {
    if n == 0 {
    } else {
      SumToMonotone(a, b, n - 1);
    }
  }

  /** Pigeonhole: a pointwise bound that is met in total is met everywhere. */
  lemma {:induction false} SumToTight(a: seq<int>, b: seq<int>, n: nat)
    requires |a| == |b| && n <= |a|
    requires forall i :: 0 <= i < |a| ==> a[i] <= b[i]
    requires SumTo(a, n) == SumTo(b, n)
    ensures forall i :: 0 <= i < n ==> a[i] == b[i]
  {
    if n == 0 {
    } else {
      SumToMonotone(a, b, n - 1);
      SumToTight(a, b, n - 1);
    }
  }

  lemma {:induction false} SumToZeros(s: seq<int>, n: nat)
    requires n <= |s|
    requires forall i :: 0 <= i < |s| ==> s[i] == 0
    ensures SumTo(s, n) == 0
  {
    if n == 0 {
    } else {
      SumToZeros(s, n - 1);
    }
  }

  lemma {:induction false} SumToNats(s: seq<nat>, n: nat)
    requires n <= |s|
    ensures SumTo(s, n) >= 0
    ensures forall i :: 0 <= i < n ==> s[i] <= SumTo(s, n)
  {
    if n == 0 {
    } else {
      SumToNats(s, n - 1);
    }
  }

  lemma {:induction false} SumToBounds(s: seq<int>, lo: int, hi: int, n: nat)
    requires n <= |s|
    requires forall i :: 0 <= i < |s| ==> lo <= s[i] <= hi
    ensures n * lo <= SumTo(s, n) <= n * hi
  {
    if n == 0 {
    } else {
      SumToBounds(s, lo, hi, n - 1);
      assert (n - 1) * lo + lo == n * lo && (n - 1) * hi + hi == n * hi;
    }
  }

  /** The number of positions among the first `n` that are switched on. */
  function CountTo(on: seq<bool>, n: nat): nat
    requires n <= |on|
  {
    if n == 0 then 0 else CountTo(on, n - 1) + if on[n - 1] then 1 else 0
  }
}
