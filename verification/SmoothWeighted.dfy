/** Smooth weighted round-robin over a pool of weighted entries, some of them switched off:
    raise every active entry by its weight, pick the first largest, charge it the total. */
module SmoothWeighted {
  import opened Sums

  datatype Pool = Pool(weights: seq<nat>, on: seq<bool>) {
    ghost predicate Valid() {
      |weights| == |on|
    }

    /** The weight each entry takes part with: its own when active, zero otherwise. */
    function Shares(): (s: seq<nat>)
      requires Valid()
      ensures |s| == |on|
    {
      seq(|on|, i requires 0 <= i < |on| => if on[i] then weights[i] else 0)
    }

    function Total(): (total: int)
      requires Valid()
      ensures total >= 0
    {
      SumToNats(Shares(), |on|);
      Sum(Shares())
    }
  }

  function AllOn(weights: seq<nat>): (p: Pool)
    ensures p.Valid() && p.weights == weights && forall i :: 0 <= i < |p.on| ==> p.on[i]
  {
    Pool(weights, seq(|weights|, _ => true))
  }

  function Zeros(n: nat): seq<int> {
    seq(n, _ => 0)
  }

  /** Current weights after the add phase of one pick. */
  function Raised(p: Pool, cs: seq<int>): (r: seq<int>)
    requires p.Valid() && |cs| == |p.on|
    ensures |r| == |cs|
  {
    seq(|cs|, i requires 0 <= i < |cs| => cs[i] + p.Shares()[i])
  }

  /** First position among the leading `n` that is active and largest; -1 when none is active. */
  function Best(xs: seq<int>, on: seq<bool>, n: nat): (b: int)
    requires n <= |xs| == |on|
    ensures -1 <= b < n && (b >= 0 ==> on[b])
  {
    if n == 0 then -1
    else
      var b := Best(xs, on, n - 1);
      if on[n - 1] && (b < 0 || xs[n - 1] > xs[b]) then n - 1 else b
  }

  /** `Best` is the leftmost maximum of the active entries. */
  lemma {:induction false} BestIsFirstMax(xs: seq<int>, on: seq<bool>, n: nat)
    requires n <= |xs| == |on|
    ensures var b := Best(xs, on, n);
            && (b < 0 ==> forall j :: 0 <= j < n ==> !on[j])
            && (b >= 0 ==> forall j :: 0 <= j < n && on[j] ==> xs[j] <= xs[b])
            && (b >= 0 ==> forall j :: 0 <= j < b && on[j] ==> xs[j] < xs[b])
  {
    if n == 0 {
    } else {
      BestIsFirstMax(xs, on, n - 1);
    }
  }

  /** The entry one pick selects from current weights `cs`; -1 when nothing is active. */
  function Choice(p: Pool, cs: seq<int>): int
    requires p.Valid() && |cs| == |p.on|
  {
    Best(Raised(p, cs), p.on, |cs|)
  }

  /** Current weights after one whole pick. */
  function Step(p: Pool, cs: seq<int>): (r: seq<int>)
    requires p.Valid() && |cs| == |p.on|
    ensures |r| == |cs|
  {
    var r, b := Raised(p, cs), Choice(p, cs);
    if b < 0 then r else r[b := r[b] - p.Total()]
  }

  /** Current weights after `k` picks from `cs`. */
  function Run(p: Pool, cs: seq<int>, k: nat): (r: seq<int>)
    requires p.Valid() && |cs| == |p.on|
    ensures |r| == |cs|
  {
    if k == 0 then cs else Step(p, Run(p, cs, k - 1))
  }

  /** What the pick number `k` (from zero) selects. */
  function Pick(p: Pool, cs: seq<int>, k: nat): int
    requires p.Valid() && |cs| == |p.on|
  {
    Choice(p, Run(p, cs, k))
  }

  /** How often each entry was selected among the first `k` picks. */
  function Picks(p: Pool, cs: seq<int>, k: nat): (c: seq<nat>)
    requires p.Valid() && |cs| == |p.on|
    ensures |c| == |cs|
  {
    if k == 0 then seq(|cs|, _ => 0)
    else
      var c, b := Picks(p, cs, k - 1), Pick(p, cs, k - 1);
      if b < 0 then c else c[b := c[b] + 1]
  }

  /** The part of `xs` that belongs to active entries. */
  function Active(xs: seq<int>, on: seq<bool>): (r: seq<int>)
    requires |xs| == |on|
    ensures |r| == |xs|
  {
    seq(|xs|, i requires 0 <= i < |xs| => if on[i] then xs[i] else 0)
  }

  // ---- Accounting ----

  /** A pool with positive total weight always yields a pick, and only of an active entry. */
  lemma SomePick(p: Pool, cs: seq<int>)
    requires p.Valid() && |cs| == |p.on|
    ensures Choice(p, cs) < 0 ==> p.Total() == 0
    ensures p.Total() > 0 ==> 0 <= Choice(p, cs) < |cs| && p.on[Choice(p, cs)]
  {
    BestIsFirstMax(Raised(p, cs), p.on, |cs|);
    if Choice(p, cs) < 0 {
      SumToZeros(p.Shares(), |p.on|);
    }
  }

  /** One more share earned and, when picked, one more charge paid. */
  lemma Ledger(start: int, k: int, w: int, c: int, t: int, hit: bool)
    ensures start + (k - 1) * w - c * t + w - (if hit then t else 0)
         == start + k * w - (c + if hit then 1 else 0) * t
  {
  }

  lemma RunAt(p: Pool, cs: seq<int>, k: nat, i: nat)
    requires p.Valid() && |cs| == |p.on| && i < |cs| && k > 0
    ensures Run(p, cs, k)[i]
         == Run(p, cs, k - 1)[i] + p.Shares()[i] - (if Pick(p, cs, k - 1) == i then p.Total() else 0)
    ensures Picks(p, cs, k)[i] == Picks(p, cs, k - 1)[i] + if Pick(p, cs, k - 1) == i then 1 else 0
    ensures Pick(p, cs, k - 1) == i ==> p.on[i]
  {
  }

  /** Every current weight is its start plus its earned share minus the charges for its picks. */
  lemma {:induction false} Accounting(p: Pool, cs: seq<int>, k: nat, i: nat)
    requires p.Valid() && |cs| == |p.on| && i < |cs|
    ensures Run(p, cs, k)[i] == cs[i] + k * p.Shares()[i] - Picks(p, cs, k)[i] * p.Total()
    ensures !p.on[i] ==> Picks(p, cs, k)[i] == 0
  {
    if k == 0 {
    } else {
      Accounting(p, cs, k - 1, i);
      RunAt(p, cs, k, i);
      Ledger(cs[i], k, p.Shares()[i], Picks(p, cs, k - 1)[i], p.Total(), Pick(p, cs, k - 1) == i);
    }
  }

  lemma RaisedSums(p: Pool, cs: seq<int>)
    requires p.Valid() && |cs| == |p.on|
    ensures Sum(Raised(p, cs)) == Sum(cs) + p.Total()
    ensures Sum(Active(Raised(p, cs), p.on)) == Sum(Active(cs, p.on)) + p.Total()
  {
    SumPointwise(cs, p.Shares(), Raised(p, cs));
    SumPointwise(Active(cs, p.on), p.Shares(), Active(Raised(p, cs), p.on));
  }

  /** A pick moves weight around without creating any, overall and among the active entries. */
  lemma StepConserves(p: Pool, cs: seq<int>)
    requires p.Valid() && |cs| == |p.on|
    ensures Sum(Step(p, cs)) == Sum(cs)
    ensures Sum(Active(Step(p, cs), p.on)) == Sum(Active(cs, p.on))
  {
    RaisedSums(p, cs);
    SomePick(p, cs);
    var r, b := Raised(p, cs), Choice(p, cs);
    if b >= 0 {
      Charged(r, p.on, b, p.Total());
    }
  }

  lemma Charged(r: seq<int>, on: seq<bool>, b: nat, t: int)
    requires b < |r| == |on| && on[b]
    ensures Sum(r[b := r[b] - t]) == Sum(r) - t
    ensures Sum(Active(r[b := r[b] - t], on)) == Sum(Active(r, on)) - t
  {
    SumUpdate(r, b, r[b] - t);
    ActiveUpdate(r, on, b, r[b] - t);
  }

  lemma ActiveUpdate(xs: seq<int>, on: seq<bool>, b: nat, v: int)
    requires b < |xs| == |on| && on[b]
    ensures Sum(Active(xs[b := v], on)) == Sum(Active(xs, on)) - xs[b] + v
  {
    SumUpdate(Active(xs, on), b, v);
    assert Active(xs[b := v], on) == Active(xs, on)[b := v];
  }

  lemma {:induction false} RunConserves(p: Pool, cs: seq<int>, k: nat)
    requires p.Valid() && |cs| == |p.on|
    ensures Sum(Run(p, cs, k)) == Sum(cs)
    ensures Sum(Active(Run(p, cs, k), p.on)) == Sum(Active(cs, p.on))
  {
    if k == 0 {
    } else {
      RunConserves(p, cs, k - 1);
      StepConserves(p, Run(p, cs, k - 1));
    }
  }

  lemma {:induction false} PicksAddUp(p: Pool, cs: seq<int>, k: nat)
    requires p.Valid() && |cs| == |p.on|
    requires p.Total() > 0
    ensures Sum(Picks(p, cs, k)) == k
  {
    if k == 0 {
      SumToZeros(Picks(p, cs, 0), |p.on|);
    } else {
      PicksAddUp(p, cs, k - 1);
      SomePick(p, Run(p, cs, k - 1));
      var c, b := Picks(p, cs, k - 1), Pick(p, cs, k - 1);
      SumUpdate(c, b, c[b] + 1);
    }
  }

  // ---- The floor under every active current weight ----

  lemma {:induction false} ActiveSumAtMost(xs: seq<int>, on: seq<bool>, m: int, n: nat)
    requires n <= |xs| == |on|
    requires forall i :: 0 <= i < |xs| && on[i] ==> xs[i] <= m
    ensures SumTo(Active(xs, on), n) <= CountTo(on, n) * m
  {
    if n == 0 {
    } else {
      ActiveSumAtMost(xs, on, m, n - 1);
      assert (CountTo(on, n - 1) + 1) * m == CountTo(on, n - 1) * m + m;
    }
  }

  /** `lo` is a bound that picks from `cs` cannot break: all active entries start at or above it,
      and a pick whose raised value were below `lo` plus the total would contradict the sum. */
  ghost predicate Floor(p: Pool, cs: seq<int>, lo: int)
    requires p.Valid() && |cs| == |p.on|
  {
    && (forall i :: 0 <= i < |cs| && p.on[i] ==> lo <= cs[i])
    && CountTo(p.on, |p.on|) * (lo + p.Total() - 1) < Sum(Active(cs, p.on)) + p.Total()
  }

  lemma StepKeepsFloor(p: Pool, cs: seq<int>, lo: int)
    requires p.Valid() && |cs| == |p.on|
    requires Floor(p, cs, lo)
    ensures Floor(p, Step(p, cs), lo)
  {
    var r, b := Raised(p, cs), Choice(p, cs);
    StepConserves(p, cs);
    RaisedSums(p, cs);
    BestIsFirstMax(r, p.on, |cs|);
    if b >= 0 && r[b] < lo + p.Total() {
      ActiveSumAtMost(r, p.on, lo + p.Total() - 1, |p.on|);
      assert false;
    }
  }

  lemma {:induction false} RunKeepsFloor(p: Pool, cs: seq<int>, lo: int, k: nat)
    requires p.Valid() && |cs| == |p.on|
    requires Floor(p, cs, lo)
    ensures Floor(p, Run(p, cs, k), lo)
  {
    if k == 0 {
    } else {
      RunKeepsFloor(p, cs, lo, k - 1);
      StepKeepsFloor(p, Run(p, cs, k - 1), lo);
    }
  }

  lemma FreshFloor(p: Pool)
    requires p.Valid() && p.Total() > 0
    ensures Floor(p, Zeros(|p.on|), 1 - p.Total())
  {
    SumToZeros(Active(Zeros(|p.on|), p.on), |p.on|);
    assert CountTo(p.on, |p.on|) * 0 == 0;
  }

  // ---- Fairness from a fresh pool ----

  function CeilDiv(a: nat, b: nat): nat
    requires b > 0
  {
    (a + b - 1) / b
  }

  lemma QuotientBound(c: nat, a: nat, b: nat)
    requires b > 0 && c * b < a + b
    ensures c <= CeilDiv(a, b)
  {
    var q := CeilDiv(a, b);
    assert a + b - 1 < (q + 1) * b;
    MulMonotone(q + 1, c, b);
  }

  lemma MulMonotone(x: int, y: int, b: nat)
    ensures x <= y ==> x * b <= y * b
  {
    if x <= y {
      assert (y - x) * b >= 0;
    }
  }

  /** After any number of picks no entry is ahead of its exact share, rounded up. */
  lemma NeverAhead(p: Pool, k: nat, i: nat)
    requires p.Valid() && p.Total() > 0 && i < |p.on|
    ensures Picks(p, Zeros(|p.on|), k)[i] <= CeilDiv(k * p.Shares()[i], p.Total())
  {
    var cs, t := Zeros(|p.on|), p.Total();
    Accounting(p, cs, k, i);
    if p.on[i] {
      FreshFloor(p);
      RunKeepsFloor(p, cs, 1 - t, k);
      QuotientBound(Picks(p, cs, k)[i], k * p.Shares()[i], t);
    }
  }

  lemma AtMostDue(p: Pool, m: nat, n: nat, i: nat)
    requires p.Valid() && p.Total() > 0 && n == m * p.Total() && i < |p.on|
    ensures Picks(p, Zeros(|p.on|), n)[i] <= m * p.Shares()[i]
  {
    var cs := Zeros(|p.on|);
    Accounting(p, cs, n, i);
    if p.on[i] {
      FreshFloor(p);
      RunKeepsFloor(p, cs, 1 - p.Total(), n);
      RoundsCancel(m, p.Total(), p.Shares()[i], Picks(p, cs, n)[i]);
    }
  }

  lemma RoundsCancel(m: nat, t: int, w: nat, c: nat)
    requires t > 0 && m * t * w - c * t > -t
    ensures c <= m * w
  {
    assert m * t * w - c * t == (m * w - c) * t;
    MulMonotone(m * w - c, -1, t);
  }

  lemma AllZero(p: Pool, m: nat, n: nat, i: nat)
    requires p.Valid() && n == m * p.Total() && i < |p.on|
    requires Picks(p, Zeros(|p.on|), n)[i] == m * p.Shares()[i]
    ensures Run(p, Zeros(|p.on|), n)[i] == 0
  {
    Accounting(p, Zeros(|p.on|), n, i);
    Reorder(m, p.Total(), p.Shares()[i], n);
  }

  lemma Reorder(m: int, t: int, w: int, n: int)
    requires n == m * t
    ensures n * w == m * w * t
  {
  }

  /** `m` whole rounds give every entry exactly its weight per round and end where they began. */
  lemma ExactShares(p: Pool, m: nat, n: nat)
    requires p.Valid() && p.Total() > 0 && n == m * p.Total()
    ensures forall i :: 0 <= i < |p.on| ==> Picks(p, Zeros(|p.on|), n)[i] == m * p.Shares()[i]
    ensures Run(p, Zeros(|p.on|), n) == Zeros(|p.on|)
  {
    var cs := Zeros(|p.on|);
    var due := seq(|p.on|, i requires 0 <= i < |p.on| => m * p.Shares()[i]);
    forall i | 0 <= i < |p.on| ensures Picks(p, cs, n)[i] <= due[i] {
      AtMostDue(p, m, n, i);
    }
    PicksAddUp(p, cs, n);
    SumScaled(p.Shares(), m, due);
    SumToTight(Picks(p, cs, n), due, |p.on|);
    forall i | 0 <= i < |p.on| ensures Run(p, cs, n)[i] == 0 {
      AllZero(p, m, n, i);
    }
    assert Run(p, cs, n) == cs;
  }

  lemma {:induction false} RunSplits(p: Pool, cs: seq<int>, j: nat, k: nat)
    requires p.Valid() && |cs| == |p.on|
    ensures Run(p, cs, j + k) == Run(p, Run(p, cs, j), k)
  {
    if k == 0 {
    } else {
      RunSplits(p, cs, j, k - 1);
      assert j + k - 1 == j + (k - 1);
    }
  }

  /** The sequence of picks repeats with the total weight as its period. */
  lemma PicksArePeriodic(p: Pool, m: nat, n: nat, k: nat)
    requires p.Valid() && p.Total() > 0 && n == m * p.Total()
    ensures Pick(p, Zeros(|p.on|), n + k) == Pick(p, Zeros(|p.on|), k)
  {
    ExactShares(p, m, n);
    RunSplits(p, Zeros(|p.on|), n, k);
  }

  // ---- Range of the current weights ----

  lemma ElementBelow(cs: seq<int>, i: nat, lo: int, rest: int)
    requires i < |cs| && forall j :: 0 <= j < |cs| ==> lo <= cs[j]
    requires rest == (|cs| - 1) * lo
    ensures cs[i] <= Sum(cs) - rest
  {
    var flat := seq(|cs|, _ => lo);
    SumToBounds(flat, lo, lo, |cs|);
    SumUpdate(flat, i, cs[i]);
    SumToMonotone(flat[i := cs[i]], cs, |cs|);
    assert |cs| * lo - lo == (|cs| - 1) * lo;
  }

  lemma AllOnShares(weights: seq<nat>)
    ensures AllOn(weights).Shares() == weights && AllOn(weights).Total() == Sum(weights)
  {
    assert AllOn(weights).Shares() == weights;
  }

  lemma RunBetween(p: Pool, k: nat, i: nat, lo: int, rest: int)
    requires p.Valid() && i < |p.on| && forall j :: 0 <= j < |p.on| ==> p.on[j]
    requires Floor(p, Zeros(|p.on|), lo) && rest == (|p.on| - 1) * lo
    ensures lo <= Run(p, Zeros(|p.on|), k)[i] <= -rest
  {
    var z := Zeros(|p.on|);
    RunKeepsFloor(p, z, lo, k);
    RunConserves(p, z, k);
    SumToZeros(z, |p.on|);
    ElementBelow(Run(p, z, k), i, lo, rest);
  }

  /** With every entry active, current weights stay strictly between minus the total and the
      total times the number of entries, between the add and the subtract as well as after it. */
  lemma WeightRange(weights: seq<nat>, k: nat, i: nat, top: int)
    requires i < |weights| && |weights| >= 2 && Sum(weights) > 0 && top == |weights| * Sum(weights)
    ensures var p := AllOn(weights); var cs := Run(p, Zeros(|weights|), k);
            && -Sum(weights) < cs[i] < top
            && -Sum(weights) < Raised(p, cs)[i] < top
  {
    AllOnShares(weights);
    FreshFloor(AllOn(weights));
    SumToNats(weights, |weights|);
    var lo := 1 - Sum(weights);
    var rest := (|weights| - 1) * lo;
    RangeTop(|weights|, Sum(weights), lo, rest);
    RunBetween(AllOn(weights), k, i, lo, rest);
  }

  lemma RangeTop(n: nat, w: int, lo: int, rest: int)
    requires n >= 2 && w > 0 && lo == 1 - w && rest == (n - 1) * lo
    ensures w - rest < n * w
  {
    assert rest == n - 1 - n * w + w;
  }

  const I64_LIMIT := 0x8000_0000_0000_0000

  /** Fewer than 2^15 services with 32-bit weights can never overflow a 64-bit current weight. */
  lemma RangeFitsI64(weights: seq<nat>)
    requires |weights| < 0x8000
    requires forall i :: 0 <= i < |weights| ==> weights[i] < 0x1_0000_0000
    ensures |weights| * Sum(weights) < I64_LIMIT
  {
    SumToBounds(weights, 0, 0x1_0000_0000, |weights|);
    ProductFits(|weights|, Sum(weights));
  }

  lemma ProductFits(n: nat, w: int)
    requires n < 0x8000 && 0 <= w <= n * 0x1_0000_0000
    ensures n * w < I64_LIMIT
  {
    assert w < 0x8000_0000_0000;
    MulMonotone(n, 0x8000, w);
  }
}
