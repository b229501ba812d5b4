/** Bounds on current weights that survive any history of picks and health changes. */
module WeightBounds {
  import opened Sums
  import opened SmoothWeighted

  /** What `k` of `n` entries may hold together when picks charge at most `w`. */
  function Cap(w: nat, k: int, n: int): int {
    w * (k * (n - k))
  }

  /** No group of entries holds more than its cap. */
  ghost predicate Bounded(cs: seq<int>, w: nat) {
    forall a: seq<bool> :: |a| == |cs| ==> Sum(Active(cs, a)) <= Cap(w, CountTo(a, |a|), |cs|)
  }

  lemma CapIsPositive(w: nat, k: nat, n: nat)
    requires k <= n
    ensures Cap(w, k, n) >= 0
  {
    assert k * (n - k) >= 0;
  }

  lemma CapAverage(w: nat, k: int, n: int)
    ensures Cap(w, k - 1, n) + Cap(w, k + 1, n) == 2 * Cap(w, k, n) - 2 * w
  {
    var x, y, z := (k - 1) * (n - k + 1), (k + 1) * (n - k - 1), k * (n - k);
    assert x + y == 2 * z - 2;
    assert w * x + w * y == w * (x + y) == w * (2 * z - 2) == 2 * (w * z) - 2 * w;
  }

  lemma {:induction false} CountUpdate(a: seq<bool>, i: nat, v: bool, n: nat)
    requires i < |a| && n <= |a|
    ensures CountTo(a[i := v], n)
         == CountTo(a, n) + (if i < n && v then 1 else 0) - if i < n && a[i] then 1 else 0
  {
    if n == 0 {
    } else {
      CountUpdate(a, i, v, n - 1);
    }
  }

  lemma ActiveMember(xs: seq<int>, a: seq<bool>, i: nat, v: bool)
    requires i < |xs| == |a|
    ensures Sum(Active(xs, a[i := v]))
         == Sum(Active(xs, a)) + (if v then xs[i] else 0) - if a[i] then xs[i] else 0
  {
    SumUpdate(Active(xs, a), i, if v then xs[i] else 0);
    assert Active(xs, a[i := v]) == Active(xs, a)[i := if v then xs[i] else 0];
  }

  /** Without one more member, and with one more. */
  lemma Neighbours(cs: seq<int>, w: nat, a: seq<bool>, i: nat, v: bool)
    requires Bounded(cs, w) && i < |cs| == |a| && a[i] != v
    ensures var k := CountTo(a, |a|);
            if v then Sum(Active(cs, a)) + cs[i] <= Cap(w, k + 1, |cs|)
            else Sum(Active(cs, a)) - cs[i] <= Cap(w, k - 1, |cs|)
  {
    ActiveMember(cs, a, i, v);
    CountUpdate(a, i, v, |a|);
  }

  lemma ActiveSplits(p: Pool, cs: seq<int>, a: seq<bool>)
    requires p.Valid() && |cs| == |p.on| == |a|
    ensures Sum(Active(Raised(p, cs), a)) == Sum(Active(cs, a)) + Sum(Active(p.Shares(), a))
  {
    SumPointwise(Active(cs, a), Active(p.Shares(), a), Active(Raised(p, cs), a));
  }

  lemma EarnedAtMost(p: Pool, a: seq<bool>)
    requires p.Valid() && |p.on| == |a|
    ensures 0 <= Sum(Active(p.Shares(), a)) <= p.Total()
  {
    var shares := Active(p.Shares(), a);
    SumToMonotone(shares, p.Shares(), |a|);
    SumToMonotone(Zeros(|a|), shares, |a|);
    SumToZeros(Zeros(|a|), |a|);
  }

  lemma SomeEarner(p: Pool, a: seq<bool>) returns (j: nat)
    requires p.Valid() && |p.on| == |a| && Sum(Active(p.Shares(), a)) > 0
    ensures j < |a| && a[j] && p.on[j]
  {
    if forall i :: 0 <= i < |a| ==> !(a[i] && p.on[i]) {
      SumToZeros(Active(p.Shares(), a), |a|);
    }
    j :| 0 <= j < |a| && a[j] && p.on[j];
  }

  lemma StepSums(p: Pool, cs: seq<int>, a: seq<bool>, b: nat)
    requires p.Valid() && |cs| == |p.on| == |a| && b == Choice(p, cs) && b < |a|
    ensures Sum(Active(Step(p, cs), a))
         == Sum(Active(cs, a)) + Sum(Active(p.Shares(), a)) - if a[b] then p.Total() else 0
  {
    ActiveSplits(p, cs, a);
    var r := Raised(p, cs);
    if a[b] {
      ActiveUpdate(r, a, b, r[b] - p.Total());
    } else {
      assert Active(r[b := r[b] - p.Total()], a) == Active(r, a);
    }
  }

  /** The group that the pick is not in: it earns no more than the picked entry's lead leaves room for. */
  lemma OutsidersStayBounded(p: Pool, cs: seq<int>, w: nat, a: seq<bool>, j: nat)
    requires p.Valid() && |cs| == |p.on| == |a| && 0 < p.Total() <= w && Bounded(cs, w)
    requires var b := Choice(p, cs); 0 <= b < |a| && !a[b] && j < |a| && a[j] && p.on[j]
    ensures Sum(Active(cs, a)) + Sum(Active(p.Shares(), a)) <= Cap(w, CountTo(a, |a|), |cs|)
  {
    var b, shares := Choice(p, cs), p.Shares();
    BestIsFirstMax(Raised(p, cs), p.on, |cs|);
    assert cs[j] + shares[j] <= cs[b] + shares[b];
    Neighbours(cs, w, a, j, false);
    Neighbours(cs, w, a, b, true);
    CapAverage(w, CountTo(a, |a|), |cs|);
    ActiveMember(shares, a, b, true);
    EarnedAtMost(p, a[b := true]);
  }

  lemma StepKeepsCap(p: Pool, cs: seq<int>, w: nat, a: seq<bool>)
    requires p.Valid() && |cs| == |p.on| == |a| && 0 < p.Total() <= w && Bounded(cs, w)
    ensures Sum(Active(Step(p, cs), a)) <= Cap(w, CountTo(a, |a|), |cs|)
  {
    SomePick(p, cs);
    StepSums(p, cs, a, Choice(p, cs));
    EarnedAtMost(p, a);
    if !a[Choice(p, cs)] && Sum(Active(p.Shares(), a)) > 0 {
      var j := SomeEarner(p, a);
      OutsidersStayBounded(p, cs, w, a, j);
    }
  }

  /** A pick from any healthy set keeps every group under its cap. */
  lemma StepKeepsBounded(p: Pool, cs: seq<int>, w: nat)
    requires p.Valid() && |cs| == |p.on| && 0 < p.Total() <= w && Bounded(cs, w)
    ensures Bounded(Step(p, cs), w)
  {
    forall a: seq<bool> | |a| == |cs|
      ensures Sum(Active(Step(p, cs), a)) <= Cap(w, CountTo(a, |a|), |cs|)
    {
      StepKeepsCap(p, cs, w, a);
    }
  }

  lemma {:induction false} RunKeepsBounded(p: Pool, cs: seq<int>, w: nat, m: nat)
    requires p.Valid() && |cs| == |p.on| && 0 < p.Total() <= w && Bounded(cs, w)
    ensures Bounded(Run(p, cs, m), w)
  {
    if m == 0 {
    } else {
      RunKeepsBounded(p, cs, w, m - 1);
      StepKeepsBounded(p, Run(p, cs, m - 1), w);
    }
  }

  lemma {:induction false} CountWithin(a: seq<bool>, n: nat)
    requires n <= |a|
    ensures CountTo(a, n) <= n
    ensures (forall i :: 0 <= i < n ==> a[i]) ==> CountTo(a, n) == n
    ensures (forall i :: 0 <= i < n ==> !a[i]) ==> CountTo(a, n) == 0
  {
    if n == 0 {
    } else {
      CountWithin(a, n - 1);
    }
  }

  lemma FreshBounded(n: nat, w: nat)
    ensures Bounded(Zeros(n), w)
  {
    forall a: seq<bool> | |a| == n
      ensures Sum(Active(Zeros(n), a)) <= Cap(w, CountTo(a, |a|), n)
    {
      SumToZeros(Active(Zeros(n), a), n);
      CountWithin(a, n);
      CapIsPositive(w, CountTo(a, n), n);
    }
  }

  /** Each entry, and all the others together, stay within `w` times the number of others. */
  lemma EachWithin(cs: seq<int>, w: nat, i: nat, top: int)
    requires Bounded(cs, w) && Sum(cs) == 0 && i < |cs| && top == w * (|cs| - 1)
    ensures -top <= cs[i] <= top
  {
    var none, all := seq(|cs|, _ => false), seq(|cs|, _ => true);
    CountWithin(none, |cs|);
    CountWithin(all, |cs|);
    SumToZeros(Active(cs, none), |cs|);
    assert Active(cs, all) == cs;
    CapOfOne(w, |cs|);
    Neighbours(cs, w, none, i, true);
    Neighbours(cs, w, all, i, false);
  }

  lemma CapOfOne(w: nat, n: int)
    ensures Cap(w, 1, n) == w * (n - 1) == Cap(w, n - 1, n)
  {
    assert 1 * (n - 1) == n - 1 && (n - 1) * (n - (n - 1)) == n - 1;
  }

  /** The healthy servers never carry more than all of them. */
  lemma TotalAtMost(p: Pool)
    requires p.Valid()
    ensures p.Total() <= Sum(p.weights)
  {
    SumToMonotone(p.Shares(), p.weights, |p.on|);
  }

  predicate InI64(x: int) {
    -I64_LIMIT <= x < I64_LIMIT
  }

  /** Before a pick, between its add and its subtract, and after it, every slot is a 64-bit number. */
  lemma PickFitsI64(p: Pool, cs: seq<int>, i: nat, w: nat, top: int)
    requires p.Valid() && |cs| == |p.on| && i < |cs| && w == Sum(p.weights) && p.Total() > 0
    requires Bounded(cs, w) && Sum(cs) == 0 && top == w * (|cs| - 1) && |cs| * w < I64_LIMIT
    ensures -top <= Step(p, cs)[i] <= top && -top <= Raised(p, cs)[i] <= top + w
    ensures InI64(cs[i]) && InI64(Raised(p, cs)[i]) && InI64(Step(p, cs)[i])
  {
    TotalAtMost(p);
    SumToNats(p.Shares(), |p.on|);
    StepConserves(p, cs);
    StepKeepsBounded(p, cs, w);
    EachWithin(cs, w, i, top);
    EachWithin(Step(p, cs), w, i, top);
    OneMoreShare(|cs|, w, top);
  }

  lemma OneMoreShare(n: nat, w: nat, top: int)
    requires top == w * (n - 1)
    ensures top + w == n * w
  {
  }

  // ---- Every history ----

  datatype Event = Serve | Mark(index: nat, up: bool)

  datatype Servers = Servers(healthy: seq<bool>, weights: seq<int>)

  /** The balancer with weights `ws` after a history of picks and health changes. */
  function After(ws: seq<nat>, events: seq<Event>): (s: Servers)
    ensures |s.healthy| == |s.weights| == |ws|
  {
    if events == [] then Servers(AllOn(ws).on, Zeros(|ws|))
    else
      var s, e := After(ws, events[..|events| - 1]), events[|events| - 1];
      match e
      case Mark(i, up) => if i < |ws| then s.(healthy := s.healthy[i := up]) else s
      case Serve =>
        var p := Pool(ws, s.healthy);
        if p.Total() == 0 then s else s.(weights := Step(p, s.weights))
  }

  lemma {:induction false} HistoryStaysBounded(ws: seq<nat>, events: seq<Event>)
    ensures Sum(ws) >= 0 && Bounded(After(ws, events).weights, Sum(ws)) && Sum(After(ws, events).weights) == 0
  {
    SumToNats(ws, |ws|);
    if events == [] {
      FreshBounded(|ws|, Sum(ws));
      SumToZeros(Zeros(|ws|), |ws|);
    } else {
      var before := After(ws, events[..|events| - 1]);
      HistoryStaysBounded(ws, events[..|events| - 1]);
      var p := Pool(ws, before.healthy);
      if p.Total() > 0 {
        TotalAtMost(p);
        StepKeepsBounded(p, before.weights, Sum(ws));
        StepConserves(p, before.weights);
      }
    }
  }

  /** After every history of picks and health changes the current weights add up to zero, and each is
      within the weight of all servers times the number of others. */
  lemma EveryHistoryWithin(ws: seq<nat>, events: seq<Event>, i: nat, top: int)
    requires i < |ws| && top == Sum(ws) * (|ws| - 1)
    ensures -top <= After(ws, events).weights[i] <= top && Sum(After(ws, events).weights) == 0
  {
    HistoryStaysBounded(ws, events);
    EachWithin(After(ws, events).weights, Sum(ws), i, top);
  }
}

/** The weighted load balancer: smooth weighted round-robin over servers whose health changes,
    with the total weight of the healthy servers cached between changes. */
module WeightedBalancers {
  import opened Sums
  import opened SmoothWeighted
  import opened WeightBounds
  import opened Wrappers

  class WeightedBalancer {
    const weights: seq<nat>
    var healthy: seq<bool>
    var currentWeight: seq<int>
    var effectiveWeight: seq<nat>
    var cachedTotalWeight: int

    ghost function Servers(): Pool
      reads this
    {
      Pool(weights, healthy)
    }

    /** What holds after every sequence of picks and health changes. */
    ghost predicate Valid()
      reads this
    {
      && |weights| == |healthy| == |currentWeight|
      && effectiveWeight == weights
      && cachedTotalWeight == Servers().Total()
      && Sum(currentWeight) == 0
      && AllWeight() >= 0 && Bounded(currentWeight, AllWeight())
    }

    /** The weight of all servers, healthy or not. */
    ghost function AllWeight(): int {
      Sum(weights)
    }

    constructor (config: seq<nat>)
      ensures Valid() && weights == config && currentWeight == Zeros(|config|)
      ensures forall i :: 0 <= i < |config| ==> healthy[i]
    {
      weights := config;
      healthy := AllOn(config).on;
      currentWeight := Zeros(|config|);
      effectiveWeight := config;
      cachedTotalWeight := Sum(config);
      AllOnShares(config);
      SumToZeros(Zeros(|config|), |config|);
      SumToNats(config, |config|);
      FreshBounded(|config|, Sum(config));
    }

    method RecomputeTotalWeight()
      requires |weights| == |healthy| && effectiveWeight == weights
      modifies this`cachedTotalWeight
      ensures cachedTotalWeight == Servers().Total()
    {
      var total := 0;
      for i := 0 to |weights|
        invariant total == SumTo(Servers().Shares(), i)
      {
        if healthy[i] {
          total := total + effectiveWeight[i];
        }
      }
      cachedTotalWeight := total;
    }

    method MarkHealthy(index: nat)
      requires Valid()
      modifies this
      ensures Valid() && currentWeight == old(currentWeight)
      ensures healthy == if index < |weights| then old(healthy)[index := true] else old(healthy)
    {
      if index < |weights| {
        healthy := healthy[index := true];
        effectiveWeight := effectiveWeight[index := weights[index]];
        RecomputeTotalWeight();
      }
    }

    method MarkUnhealthy(index: nat)
      requires Valid()
      modifies this
      ensures Valid() && currentWeight == old(currentWeight)
      ensures healthy == if index < |weights| then old(healthy)[index := false] else old(healthy)
    {
      if index < |weights| {
        healthy := healthy[index := false];
        RecomputeTotalWeight();
      }
    }

    /** After every history of picks and health changes, each current weight is within the weight of
        all servers times the number of others. */
    lemma WeightsStayWithin(i: nat, top: int)
      requires Valid() && i < |weights| && top == AllWeight() * (|weights| - 1)
      ensures -top <= currentWeight[i] <= top
    {
      EachWithin(currentWeight, AllWeight(), i, top);
    }

    /** Pick a server. Whenever the healthy servers carry any weight the pick is healthy and is one
        step of the smooth weighted sequence; otherwise the first server stands in, untouched. With
        weights that `RangeFitsI64` allows, no addition or subtraction leaves 64 bits. */
    method NextServer() returns (server: Option<nat>)
      requires Valid()
      modifies this`currentWeight
      ensures Valid()
      ensures |weights| == 0 ==> server == None && currentWeight == old(currentWeight)
      ensures |weights| > 0 && Servers().Total() == 0 ==> server == Some(0) && currentWeight == old(currentWeight)
      ensures Servers().Total() > 0 ==>
                && server.Some? && server.value < |weights| && healthy[server.value]
                && server.value == Choice(Servers(), old(currentWeight))
                && currentWeight == Step(Servers(), old(currentWeight))
      ensures Servers().Total() > 0 && FitsI64(|weights|, AllWeight()) ==> PickFits(Servers(), old(currentWeight))
    {
      if |weights| == 0 {
        SumToZeros(Servers().Shares(), 0);
        return None;
      }
      if cachedTotalWeight == 0 {
        return Some(0);
      }
      var best := Select();
      return Some(best);
    }

    /** The two phases of a pick. */
    method Select() returns (best: nat)
      requires Valid() && Servers().Total() > 0
      modifies this`currentWeight
      ensures Valid() && best < |weights| && healthy[best]
      ensures best == Choice(Servers(), old(currentWeight)) && currentWeight == Step(Servers(), old(currentWeight))
      ensures FitsI64(|weights|, AllWeight()) ==> PickFits(Servers(), old(currentWeight))
    {
      PickIsSound(Servers(), currentWeight, AllWeight());
      best := AddWeights();
      currentWeight := currentWeight[best := currentWeight[best] - cachedTotalWeight];
    }

    /** The add phase: raise every healthy server and remember the first largest value seen. */
    method AddWeights() returns (selected: nat)
      requires |weights| == |healthy| == |currentWeight| && effectiveWeight == weights
      requires Servers().Total() > 0
      modifies this`currentWeight
      ensures currentWeight == Raised(Servers(), old(currentWeight))
      ensures selected == Choice(Servers(), old(currentWeight)) && selected < |weights|
    {
      ghost var before, raised := currentWeight, Raised(Servers(), currentWeight);
      SomePick(Servers(), currentWeight);
      var best: Option<nat> := None;
      var bestWeight := 0;
      for i := 0 to |weights|
        invariant |currentWeight| == |weights|
        invariant forall j :: 0 <= j < i ==> currentWeight[j] == raised[j]
        invariant forall j :: i <= j < |weights| ==> currentWeight[j] == before[j]
        invariant best.None? ==> Best(raised, healthy, i) < 0
        invariant best.Some? ==> best.value == Best(raised, healthy, i) && bestWeight == raised[best.value]
      {
        if healthy[i] {
          currentWeight := currentWeight[i := currentWeight[i] + effectiveWeight[i]];
          if best.None? || currentWeight[i] > bestWeight {
            bestWeight := currentWeight[i];
            best := Some(i);
          }
        }
      }
      selected := best.value;
    }
  }

  /** The number of servers times their weight is a 64-bit number, as `RangeFitsI64` says of usual ones. */
  predicate FitsI64(n: nat, w: int) {
    n * w < I64_LIMIT
  }

  /** No slot leaves 64 bits before a pick, between its add and its subtract, or after it. */
  ghost predicate PickFits(p: Pool, cs: seq<int>)
    requires p.Valid() && |cs| == |p.on|
  {
    forall i :: 0 <= i < |cs| ==> InI64(cs[i]) && InI64(Raised(p, cs)[i]) && InI64(Step(p, cs)[i])
  }

  lemma PickIsSound(p: Pool, cs: seq<int>, w: nat)
    requires p.Valid() && |cs| == |p.on| && w == Sum(p.weights) && p.Total() > 0 && Bounded(cs, w) && Sum(cs) == 0
    ensures 0 <= Choice(p, cs) < |cs| && p.on[Choice(p, cs)]
    ensures Sum(Step(p, cs)) == 0 && Bounded(Step(p, cs), w)
    ensures FitsI64(|cs|, w) ==> PickFits(p, cs)
  {
    SomePick(p, cs);
    StepConserves(p, cs);
    TotalAtMost(p);
    StepKeepsBounded(p, cs, w);
    if FitsI64(|cs|, w) {
      forall i | 0 <= i < |cs|
        ensures InI64(cs[i]) && InI64(Raised(p, cs)[i]) && InI64(Step(p, cs)[i])
      {
        PickFitsI64(p, cs, i, w, w * (|cs| - 1));
      }
    }
  }

  // ---- Stretches of picks between health changes ----

  /** With fixed health, `m` picks change a healthy server's current weight by its earned share less
      its charges, and leave unhealthy servers alone. */
  lemma StretchAccounting(p: Pool, cs: seq<int>, m: nat, i: nat)
    requires p.Valid() && |cs| == |p.on| && i < |cs|
    ensures p.on[i] ==> Run(p, cs, m)[i] - cs[i] == m * p.weights[i] - Picks(p, cs, m)[i] * p.Total()
    ensures !p.on[i] ==> Run(p, cs, m)[i] == cs[i] && Picks(p, cs, m)[i] == 0
  {
    Accounting(p, cs, m, i);
  }

  /** Whatever the health history left behind, from then on a healthy server's picks stay within a
      constant of its exact share for any number of picks: twice the weight of all servers, times the
      number of others. */
  lemma DeviationBounded(p: Pool, cs: seq<int>, w: nat, m: nat, i: nat, top: int)
    requires p.Valid() && |cs| == |p.on| && i < |cs| && p.on[i] && p.Total() > 0
    requires w == Sum(p.weights) && Bounded(cs, w) && Sum(cs) == 0 && top == w * (|cs| - 1)
    ensures -2 * top <= m * p.weights[i] - Picks(p, cs, m)[i] * p.Total() <= 2 * top
  {
    TotalAtMost(p);
    RunKeepsBounded(p, cs, w, m);
    RunConserves(p, cs, m);
    EachWithin(cs, w, i, top);
    EachWithin(Run(p, cs, m), w, i, top);
    StretchAccounting(p, cs, m, i);
  }

  /** With no health change a server of weight zero is never picked... */
  lemma ZeroWeightIdleWhenStable(p: Pool, k: nat, i: nat)
    requires p.Valid() && p.Total() > 0 && i < |p.on| && p.weights[i] == 0
    ensures Picks(p, Zeros(|p.on|), k)[i] == 0
  {
    NeverAhead(p, k, i);
  }

  /** Only server 0 and server `b` are healthy. */
  function OnlyFirstAnd(n: nat, b: nat): seq<bool> {
    seq(n, i => i == 0 || i == b)
  }

  lemma {:induction false} SharesOfTwo(ws: seq<nat>, b: nat, n: nat)
    requires n <= |ws| && 0 < b < |ws| && ws[0] == 0
    ensures SumTo(Pool(ws, OnlyFirstAnd(|ws|, b)).Shares(), n) == if b < n then ws[b] else 0
  {
    if n == 0 {
    } else {
      SharesOfTwo(ws, b, n - 1);
    }
  }

  // ---- When weight zero gets a request ----

  function Serves(m: nat): seq<Event> {
    seq(m, _ => Serve)
  }

  lemma AfterNext(ws: seq<nat>, events: seq<Event>, e: Event)
    ensures var s, t := After(ws, events), After(ws, events + [e]);
            match e
            case Mark(i, up) => t == if i < |ws| then s.(healthy := s.healthy[i := up]) else s
            case Serve =>
              var p := Pool(ws, s.healthy);
              t == if p.Total() == 0 then s else s.(weights := Step(p, s.weights))
  {
    assert (events + [e])[..|events|] == events;
  }

  lemma {:induction false} ServesRun(ws: seq<nat>, m: nat)
    requires Sum(ws) > 0
    ensures After(ws, Serves(m)) == Servers(AllOn(ws).on, Run(AllOn(ws), Zeros(|ws|), m))
  {
    if m == 0 {
    } else {
      ServesRun(ws, m - 1);
      AllOnShares(ws);
      AfterNext(ws, Serves(m - 1), Serve);
      assert Serves(m) == Serves(m - 1) + [Serve];
    }
  }

  /** All servers below `k` fail, but not server 0 and server `j`. */
  function OthersFail(j: nat, k: nat): seq<Event> {
    if k == 0 then []
    else if k - 1 == 0 || k - 1 == j then OthersFail(j, k - 1)
    else OthersFail(j, k - 1) + [Mark(k - 1, false)]
  }

  lemma {:induction false} OthersFailed(ws: seq<nat>, events: seq<Event>, j: nat, k: nat)
    requires k <= |ws| && forall i :: 0 <= i < |ws| ==> After(ws, events).healthy[i]
    ensures var s, t := After(ws, events), After(ws, events + OthersFail(j, k));
            t.weights == s.weights && forall i :: 0 <= i < |ws| ==> (t.healthy[i] <==> i >= k || i == 0 || i == j)
  {
    var before := events + if k == 0 then [] else OthersFail(j, k - 1);
    if k == 0 {
      assert events + OthersFail(j, k) == events;
    } else {
      OthersFailed(ws, events, j, k - 1);
      if k - 1 != 0 && k - 1 != j {
        AfterNext(ws, before, Mark(k - 1, false));
        assert events + OthersFail(j, k) == before + [Mark(k - 1, false)];
      }
    }
  }

  /** One pick before the end of a round, everybody but the next pick is short of exactly its weight. */
  lemma BeforeRoundEnds(ws: seq<nat>, m: nat, j: nat)
    requires Sum(ws) > 0 && m + 1 == Sum(ws) && j < |ws| && ws[0] == 0
    ensures var p, z := AllOn(ws), Zeros(|ws|);
            && Pick(p, z, m) != 0
            && (Pick(p, z, m) != j ==> Run(p, z, m)[j] + ws[j] == 0)
  {
    var p, z := AllOn(ws), Zeros(|ws|);
    AllOnShares(ws);
    ExactShares(p, 1, m + 1);
    RunAt(p, z, m + 1, j);
    ZeroWeightIdleWhenStable(p, m + 1, 0);
    RunAt(p, z, m + 1, 0);
  }

  lemma TieGoesToFirst(ws: seq<nat>, cs: seq<int>, j: nat)
    requires 0 < j < |ws| == |cs| && ws[0] == 0 && ws[j] > 0 && cs[0] == 0 && cs[j] + ws[j] == 0
    ensures var two := Pool(ws, OnlyFirstAnd(|ws|, j)); two.Total() > 0 && Choice(two, cs) == 0
  {
    var two := Pool(ws, OnlyFirstAnd(|ws|, j));
    SharesOfTwo(ws, j, |ws|);
    SomePick(two, cs);
    BestIsFirstMax(Raised(two, cs), two.on, |ws|);
    assert Raised(two, cs)[0] == 0 && Raised(two, cs)[j] == 0;
  }

  /** After this history the next request goes to server 0, with healthy servers that carry weight. */
  ghost predicate ServesFirst(ws: seq<nat>, events: seq<Event>)
    requires ws != []
  {
    var s := After(ws, events);
    var p := Pool(ws, s.healthy);
    p.Total() > 0 && Choice(p, s.weights) == 0
  }

  lemma TwoPositiveServeFirst(ws: seq<nat>, i: nat, k: nat) returns (events: seq<Event>)
    requires ws != [] && ws[0] == 0 && i < k < |ws| && ws[i] > 0 && ws[k] > 0
    ensures ServesFirst(ws, events)
  {
    SumToNats(ws, |ws|);
    var m := Sum(ws) - 1;
    var p, z := AllOn(ws), Zeros(|ws|);
    var j := if Pick(p, z, m) == i then k else i;
    BeforeRoundEnds(ws, m, 0);
    BeforeRoundEnds(ws, m, j);
    ServesRun(ws, m);
    OthersFailed(ws, Serves(m), j, |ws|);
    events := Serves(m) + OthersFail(j, |ws|);
    assert After(ws, events).healthy == OnlyFirstAnd(|ws|, j);
    TieGoesToFirst(ws, After(ws, events).weights, j);
  }

  ghost predicate TwoPositive(ws: seq<nat>) {
    exists i, k :: 0 <= i < k < |ws| && ws[i] > 0 && ws[k] > 0
  }

  lemma {:induction false} OnlyShare(shares: seq<nat>, u: nat, n: nat)
    requires u < |shares| && n <= |shares| && forall i :: 0 <= i < |shares| && i != u ==> shares[i] == 0
    ensures SumTo(shares, n) == if u < n then shares[u] else 0
  {
    if n == 0 {
    } else {
      OnlyShare(shares, u, n - 1);
    }
  }

  /** A single server of positive weight is always the pick, and pays at once what it earned. */
  lemma SinglePicked(p: Pool, u: nat)
    requires p.Valid() && u < |p.on| && (forall i :: 0 <= i < |p.on| && i != u ==> p.weights[i] == 0) && p.Total() > 0
    ensures Choice(p, Zeros(|p.on|)) == u && Step(p, Zeros(|p.on|)) == Zeros(|p.on|) && p.weights[u] > 0
  {
    var z := Zeros(|p.on|);
    OnlyShare(p.Shares(), u, |p.on|);
    SomePick(p, z);
    BestIsFirstMax(Raised(p, z), p.on, |p.on|);
    assert Step(p, z) == z;
  }

  lemma {:induction false} SingleStaysEven(ws: seq<nat>, u: nat, events: seq<Event>)
    requires u < |ws| && forall i :: 0 <= i < |ws| && i != u ==> ws[i] == 0
    ensures After(ws, events).weights == Zeros(|ws|)
  {
    if events == [] {
    } else {
      var before := After(ws, events[..|events| - 1]);
      SingleStaysEven(ws, u, events[..|events| - 1]);
      var p := Pool(ws, before.healthy);
      if p.Total() > 0 {
        SinglePicked(p, u);
      }
    }
  }

  lemma OneAtMost(ws: seq<nat>) returns (u: nat)
    requires ws != [] && !TwoPositive(ws)
    ensures u < |ws| && forall i :: 0 <= i < |ws| && i != u ==> ws[i] == 0
  {
    u := 0;
    if k :| 0 <= k < |ws| && ws[k] > 0 {
      u := k;
      forall i | 0 <= i < |ws| && i != u
        ensures ws[i] == 0
      {
        assert i < u ==> ws[i] == 0;
        assert u < i ==> ws[i] == 0;
      }
    }
  }

  /** ...but a first server of weight zero gets a request in some history, while the healthy servers carry
      weight, exactly when at least two servers have positive weight. */
  lemma ZeroWeightPickedExactly(ws: seq<nat>)
    requires ws != [] && ws[0] == 0
    ensures (exists events :: ServesFirst(ws, events)) <==> TwoPositive(ws)
  {
    if i, k :| 0 <= i < k < |ws| && ws[i] > 0 && ws[k] > 0 {
      var events := TwoPositiveServeFirst(ws, i, k);
    } else {
      var u := OneAtMost(ws);
      forall events
        ensures !ServesFirst(ws, events)
      {
        SingleStaysEven(ws, u, events);
        var p := Pool(ws, After(ws, events).healthy);
        if p.Total() > 0 {
          SinglePicked(p, u);
        }
      }
    }
  }
}
