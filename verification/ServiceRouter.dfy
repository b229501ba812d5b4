/** The weighted service router: traffic splitting between services with fixed weights. */
module ServiceRouter {
  import opened Sums
  import opened SmoothWeighted
  import opened Wrappers

  newtype i64 = x: int | -0x8000_0000_0000_0000 <= x < 0x8000_0000_0000_0000

  const I64_MIN: i64 := -0x8000_0000_0000_0000

  /** 64-bit arithmetic wraps around. */
  function WrapI64(x: int): i64 {
    ((x + 0x8000_0000_0000_0000) % 0x1_0000_0000_0000_0000 - 0x8000_0000_0000_0000) as i64
  }

  lemma NoWrap(x: int)
    requires I64_MIN as int <= x < I64_LIMIT
    ensures WrapI64(x) as int == x
  {
  }

  datatype Entry = Entry(name: string, weight: nat)

  function Weights(services: seq<Entry>): (ws: seq<nat>)
    ensures |ws| == |services|
  {
    seq(|services|, i requires 0 <= i < |services| => services[i].weight)
  }

  function TotalOf(services: seq<Entry>): i64 {
    WrapI64(Sum(Weights(services)))
  }

  /** The arithmetic of the router fits its 64-bit counters; see `RangeFitsI64` for a simple
      sufficient condition on the configuration. */
  ghost predicate Fits(services: seq<Entry>) {
    |services| * Sum(Weights(services)) < I64_LIMIT
  }

  lemma FitsBounds(services: seq<Entry>)
    requires Fits(services)
    ensures |services| > 0 ==> 0 <= Sum(Weights(services)) < I64_LIMIT
    ensures |services| >= 2 ==> 2 * Sum(Weights(services)) < I64_LIMIT
  {
    var n, w := |services|, Sum(Weights(services));
    SumToNats(Weights(services), n);
    if n > 0 {
      assert w <= n * w;
    }
    if n >= 2 {
      assert 2 * w <= n * w;
    }
  }

  /** Adding to slot `i` and then charging it stays in the range of a 64-bit integer. */
  ghost predicate Safe(p: Pool, cs: seq<int>, i: nat)
    requires p.Valid() && i < |cs| == |p.on|
  {
    && I64_MIN as int < Raised(p, cs)[i] < I64_LIMIT
    && I64_MIN as int < Raised(p, cs)[i] - p.Total() < I64_LIMIT
    && p.Shares()[i] < I64_LIMIT
  }

  /** No pick of any run overflows. */
  lemma RunFits(services: seq<Entry>, k: nat, i: nat)
    requires |services| >= 2 && Fits(services) && i < |services|
    ensures Safe(AllOn(Weights(services)), Run(AllOn(Weights(services)), Zeros(|services|), k), i)
  {
    var ws := Weights(services);
    var w := Sum(ws);
    FitsBounds(services);
    AllOnShares(ws);
    SumToNats(ws, |ws|);
    if w > 0 {
      WeightRange(ws, k, i, |services| * w);
    } else {
      Accounting(AllOn(ws), Zeros(|ws|), k, i);
    }
  }

  // ---- The algorithm in wrapping arithmetic ----

  function Ints(xs: seq<i64>): (r: seq<int>)
    ensures |r| == |xs|
  {
    seq(|xs|, i requires 0 <= i < |xs| => xs[i] as int)
  }

  function WrapRaised(ws: seq<nat>, xs: seq<i64>): (r: seq<i64>)
    requires |ws| == |xs|
    ensures |r| == |xs|
  {
    seq(|xs|, i requires 0 <= i < |xs| => WrapI64(xs[i] as int + ws[i]))
  }

  function WrapChoice(ws: seq<nat>, xs: seq<i64>): (b: nat)
    requires |ws| == |xs| > 0
    ensures b < |xs|
  {
    FirstOfAll(Ints(WrapRaised(ws, xs)), AllOn(ws).on, |xs|);
    Best(Ints(WrapRaised(ws, xs)), AllOn(ws).on, |xs|)
  }

  lemma FirstOfAll(xs: seq<int>, on: seq<bool>, n: nat)
    requires 0 < n <= |xs| == |on| && forall i :: 0 <= i < |on| ==> on[i]
    ensures Best(xs, on, n) >= 0
  {
    BestIsFirstMax(xs, on, n);
  }

  function WrapStep(ws: seq<nat>, total: i64, xs: seq<i64>): (r: seq<i64>)
    requires |ws| == |xs| > 0
    ensures |r| == |xs|
  {
    var raised, b := WrapRaised(ws, xs), WrapChoice(ws, xs);
    raised[b := WrapI64(raised[b] as int - total as int)]
  }

  /** The slots after `k` picks, for any weights. */
  function WrapRun(services: seq<Entry>, k: nat): (r: seq<i64>)
    requires services != []
    ensures |r| == |services|
  {
    if k == 0 then seq(|services|, _ => 0)
    else WrapStep(Weights(services), TotalOf(services), WrapRun(services, k - 1))
  }

  function WrapPick(services: seq<Entry>, k: nat): (b: nat)
    requires services != []
    ensures b < |services|
  {
    WrapChoice(Weights(services), WrapRun(services, k))
  }

  lemma StepAgrees(services: seq<Entry>, xs: seq<i64>, cs: seq<int>)
    requires |services| >= 2 && |xs| == |services| && Ints(xs) == cs && TotalOf(services) as int == Sum(Weights(services))
    requires forall i :: 0 <= i < |services| ==> Safe(AllOn(Weights(services)), cs, i)
    ensures var ws, p := Weights(services), AllOn(Weights(services));
            WrapChoice(ws, xs) == Choice(p, cs) && Ints(WrapStep(ws, TotalOf(services), xs)) == Step(p, cs)
  {
    var ws, p := Weights(services), AllOn(Weights(services));
    AllOnShares(ws);
    var raised := WrapRaised(ws, xs);
    forall i | 0 <= i < |xs|
      ensures raised[i] as int == Raised(p, cs)[i]
    {
      assert Ints(xs)[i] == cs[i] && Safe(p, cs, i);
      NoWrap(Raised(p, cs)[i]);
    }
    assert Ints(raised) == Raised(p, cs);
    var b := WrapChoice(ws, xs);
    assert Safe(p, cs, b);
    NoWrap(raised[b] as int - p.Total());
  }

  lemma StartAgrees(services: seq<Entry>)
    requires services != []
    ensures Ints(WrapRun(services, 0)) == Run(AllOn(Weights(services)), Zeros(|services|), 0)
  {
    assert Ints(WrapRun(services, 0)) == Zeros(|services|);
  }

  /** After `k` picks the slots are the current weights of the unbounded algorithm. */
  ghost predicate Agree(services: seq<Entry>, k: nat)
    requires services != []
  {
    Ints(WrapRun(services, k)) == Run(AllOn(Weights(services)), Zeros(|services|), k)
  }

  lemma {:induction false} RunAgrees(services: seq<Entry>, k: nat)
    requires |services| >= 2 && Fits(services)
    ensures Agree(services, k)
  {
    if k == 0 {
      StartAgrees(services);
      assert Agree(services, 0);
    } else {
      RunAgrees(services, k - 1);
      NextAgrees(services, k - 1);
    }
  }

  lemma NextAgrees(services: seq<Entry>, k: nat)
    requires |services| >= 2 && Fits(services) && Agree(services, k)
    ensures Agree(services, k + 1)
  {
    PickAgrees(services, k);
  }

  /** When the weights fit, wrapping never shows: the router's picks are those of the smooth weighted
      sequence. */
  lemma WrappingNeverShows(services: seq<Entry>, k: nat)
    requires |services| >= 2 && Fits(services)
    ensures WrapPick(services, k) == Pick(AllOn(Weights(services)), Zeros(|services|), k)
  {
    RunAgrees(services, k);
    PickAgrees(services, k);
  }

  lemma PickAgrees(services: seq<Entry>, k: nat)
    requires |services| >= 2 && Fits(services)
    requires Ints(WrapRun(services, k)) == Run(AllOn(Weights(services)), Zeros(|services|), k)
    ensures WrapPick(services, k) == Pick(AllOn(Weights(services)), Zeros(|services|), k)
    ensures Ints(WrapRun(services, k + 1)) == Run(AllOn(Weights(services)), Zeros(|services|), k + 1)
  {
    FitsBounds(services);
    NoWrap(Sum(Weights(services)));
    SlotsFit(services, k);
    StepAgrees(services, WrapRun(services, k), Run(AllOn(Weights(services)), Zeros(|services|), k));
  }

  lemma SlotsFit(services: seq<Entry>, k: nat)
    requires |services| >= 2 && Fits(services)
    ensures forall i :: 0 <= i < |services| ==>
              Safe(AllOn(Weights(services)), Run(AllOn(Weights(services)), Zeros(|services|), k), i)
  {
    forall i | 0 <= i < |services|
      ensures Safe(AllOn(Weights(services)), Run(AllOn(Weights(services)), Zeros(|services|), k), i)
    {
      RunFits(services, k, i);
    }
  }

  /** The law the router exists for: no service is ever ahead of its share rounded up, every
      service receives exactly its weight in each whole round, and the rounds repeat. */
  lemma TrafficIsSplitByWeight(services: seq<Entry>, k: nat, m: nat, n: nat, i: nat)
    requires i < |services| && Sum(Weights(services)) > 0
    requires n == m * Sum(Weights(services))
    ensures var p, z, w := AllOn(Weights(services)), Zeros(|services|), Sum(Weights(services));
            && Picks(p, z, k)[i] <= CeilDiv(k * services[i].weight, w)
            && Picks(p, z, n)[i] == m * services[i].weight
            && Pick(p, z, n + k) == Pick(p, z, k)
  {
    var p := AllOn(Weights(services));
    AllOnShares(Weights(services));
    NeverAhead(p, k, i);
    ExactShares(p, m, n);
    PicksArePeriodic(p, m, n, k);
  }

  class WeightedServiceRouter {
    const services: seq<Entry>
    const totalWeight: i64
    const currentWeights: array<i64>
    /** How many picks the router has served. */
    ghost var calls: nat

    ghost predicate Valid()
      reads this, currentWeights
    {
      ValidAfter(calls)
    }

    /** The state after `k` picks. */
    ghost predicate ValidAfter(k: nat)
      reads currentWeights
    {
      && currentWeights.Length == |services|
      && totalWeight == TotalOf(services)
      && (|services| >= 2 ==> currentWeights[..] == WrapRun(services, k))
    }

    constructor (config: seq<Entry>)
      ensures Valid() && services == config && calls == 0 && fresh(currentWeights)
    {
      services := config;
      totalWeight := TotalOf(config);
      currentWeights := new i64[|config|](_ => 0);
      calls := 0;
    }

    /** Serve one pick. For every configuration the router's `calls`-th pick is the `calls`-th of the
        algorithm in wrapping arithmetic; and when the weights fit, it is that of the smooth weighted
        sequence, whose fairness is proved in `SmoothWeighted`. */
    method NextService() returns (name: Option<string>)
      requires Valid()
      modifies this`calls, currentWeights
      ensures Valid() && calls == old(calls) + 1
      ensures |services| == 0 ==> name == None
      ensures |services| == 1 ==> name == Some(services[0].name)
      ensures |services| >= 2 ==> name == Some(services[WrapPick(services, old(calls))].name)
      ensures |services| >= 2 && Fits(services) ==>
                WrapPick(services, old(calls)) == Pick(AllOn(Weights(services)), Zeros(|services|), old(calls))
    {
      if |services| < 2 {
        calls := calls + 1;
        return if |services| == 0 then None else Some(services[0].name);
      }
      if Fits(services) {
        WrappingNeverShows(services, calls);
      }
      var selected := Select();
      calls := calls + 1;
      return Some(services[selected].name);
    }

    /** The two phases of a pick. */
    method Select() returns (selected: nat)
      requires Valid() && |services| >= 2
      modifies currentWeights
      ensures selected == WrapPick(services, calls) && ValidAfter(calls + 1)
    {
      selected := AddWeights();
      ghost var raised := currentWeights[..];
      currentWeights[selected] := WrapI64(currentWeights[selected] as int - totalWeight as int);
      assert currentWeights[..] == raised[selected := WrapI64(raised[selected] as int - totalWeight as int)];
    }

    /** The add phase: raise every slot by its weight and remember the first largest value seen. */
    method AddWeights() returns (selected: nat)
      requires currentWeights.Length == |services| >= 1
      modifies currentWeights
      ensures currentWeights[..] == WrapRaised(Weights(services), old(currentWeights[..]))
      ensures selected == WrapChoice(Weights(services), old(currentWeights[..]))
    {
      ghost var before := currentWeights[..];
      ghost var raised := WrapRaised(Weights(services), before);
      var maxWeight := I64_MIN;
      selected := 0;
      for i := 0 to |services|
        invariant forall j :: 0 <= j < i ==> currentWeights[j] == raised[j]
        invariant forall j :: i <= j < |services| ==> currentWeights[j] == before[j]
        invariant BestSoFar(raised, i, selected, maxWeight)
      {
        BestNext(raised, i, selected, maxWeight);
        var y := WrapI64(currentWeights[i] as int + services[i].weight);
        assert y == raised[i];
        currentWeights[i] := y;
        if y > maxWeight {
          maxWeight := y;
          selected := i;
        }
      }
      assert currentWeights[..] == raised;
      assert Every(|services|) == AllOn(Weights(services)).on;
    }
  }

  /** The search has reached `i`: nothing seen yet, or the first largest of what it saw. */
  ghost predicate BestSoFar(xs: seq<i64>, i: nat, selected: nat, maxWeight: i64)
    requires i <= |xs|
  {
    if i == 0 then selected == 0 && maxWeight == I64_MIN
    else selected == Best(Ints(xs), Every(|xs|), i) && selected < |xs| && maxWeight == xs[selected]
  }

  function Every(n: nat): (on: seq<bool>)
    ensures |on| == n && forall i :: 0 <= i < n ==> on[i]
  {
    seq(n, _ => true)
  }

  lemma BestNext(xs: seq<i64>, i: nat, selected: nat, maxWeight: i64)
    requires i < |xs| && BestSoFar(xs, i, selected, maxWeight)
    ensures if xs[i] > maxWeight then BestSoFar(xs, i + 1, i, xs[i]) else BestSoFar(xs, i + 1, selected, maxWeight)
  {
  }
}
