/** Two round-robin rotations over servers with health flags: the HTTP balancer, whose counter moves
    one place per pick, and the TCP service, whose counter moves past the server it picked. The
    counters are 64 bits wide and wrap. */
module RoundRobin {
  import opened Arithmetic
  import opened Sums
  import opened Words
  import opened Wrappers

  /** The counter passes `m` places from `c` without the wrap showing: it is not reached, or the ring
      goes into the word size evenly. */
  predicate Smooth(n: nat, c: nat, m: nat)
    requires n > 0
  {
    c + m <= U64 || U64 % n == 0
  }

  // ---- Positions on the endless ring ----

  ghost predicate SomeHealthy(h: seq<bool>) {
    exists i :: 0 <= i < |h| && h[i]
  }

  /** Is the server at ring position `p` healthy? */
  predicate Up(h: seq<bool>, p: nat)
    requires |h| > 0
  {
    h[Place(p, |h|)]
  }

  /** The server number at ring position `p`. */
  function Place(p: nat, n: nat): (s: nat)
    requires n > 0
    ensures s < n
  {
    if p < n then p else Place(p - n, n)
  }

  lemma {:induction false} PlaceIsMod(p: nat, n: nat)
    requires n > 0
    ensures Place(p, n) == p % n
  {
    if p < n {
    } else {
      PlaceIsMod(p - n, n);
      ModStep(p - n, n);
    }
  }

  /** Nobody between the positions `a` and `b` is healthy. */
  ghost predicate Down(h: seq<bool>, a: nat, b: nat)
    requires |h| > 0
  {
    forall x :: a <= x < b ==> !Up(h, x)
  }

  lemma UpIs(h: seq<bool>, p: nat)
    requires |h| > 0
    ensures Up(h, p) == h[p % |h|]
  {
    PlaceIsMod(p, |h|);
  }

  /** A full turn from `c` passes every server. */
  lemma ModReach(c: nat, s: nat, n: nat) returns (p: nat)
    requires s < n
    ensures c <= p < c + n && p % n == s
  {
    var q, r := c / n, c % n;
    Split(c, n);
    if r <= s {
      p := q * n + s;
      DivModOf(p, q, s, n);
    } else {
      Distribute(q, 0, n);
      p := (q + 1) * n + s;
      DivModOf(p, q + 1, s, n);
    }
  }

  lemma UpTurn(h: seq<bool>, p: nat)
    requires |h| > 0
    ensures Up(h, p + |h|) == Up(h, p)
  {
    assert Place(p + |h|, |h|) == Place(p, |h|);
  }

  /** The first healthy position at or after `p`, looking no further than `p + k`. */
  function Next(h: seq<bool>, p: nat, k: nat): (q: nat)
    requires |h| > 0
    ensures p <= q <= p + k
    decreases k
  {
    if k == 0 || Up(h, p) then p else Next(h, p + 1, k - 1)
  }

  lemma {:induction false} NextIsFirst(h: seq<bool>, p: nat, k: nat, u: nat)
    requires |h| > 0 && p <= u <= p + k && Up(h, u)
    ensures Next(h, p, k) <= u && Up(h, Next(h, p, k))
    ensures Down(h, p, Next(h, p, k))
    decreases k
  {
    if k == 0 || Up(h, p) {
    } else {
      NextIsFirst(h, p + 1, k - 1, u);
    }
  }

  /** From every position a healthy server lies less than a full turn ahead. */
  lemma NextWithinTurn(h: seq<bool>, p: nat)
    requires SomeHealthy(h)
    ensures p <= Next(h, p, |h| - 1) < p + |h| && Up(h, Next(h, p, |h| - 1))
    ensures Down(h, p, Next(h, p, |h| - 1))
  {
    var s :| 0 <= s < |h| && h[s];
    var u := ModReach(p, s, |h|);
    UpIs(h, u);
    NextIsFirst(h, p, |h| - 1, u);
  }

  function Seek(h: seq<bool>, p: nat): (q: nat)
    requires |h| > 0
    ensures p <= q < p + |h|
  {
    Next(h, p, |h| - 1)
  }

  lemma SeekIs(h: seq<bool>, p: nat, q: nat)
    requires |h| > 0 && p <= q < p + |h| && Up(h, q)
    requires Down(h, p, q)
    ensures Seek(h, p) == q
  {
    NextIsFirst(h, p, |h| - 1, q);
  }

  // ---- The HTTP balancer ----

  /** The server of `n` at offset `i` from counter `c`. */
  function Server(n: nat, c: nat, i: nat): (s: nat)
    requires n > 0
    ensures s < n
  {
    Wrap(c + i) % n
  }

  function Slot(h: seq<bool>, c: nat, i: nat): (s: nat)
    requires |h| > 0
    ensures s < |h|
  {
    Server(|h|, c, i)
  }

  /** The first offset from counter `c`, from `i` on, whose server is healthy; `|h|` when none is. */
  function Scan(h: seq<bool>, c: nat, i: nat): (k: nat)
    requires 0 < |h| && i <= |h|
    ensures i <= k <= |h|
    decreases |h| - i
  {
    if i == |h| || h[Slot(h, c, i)] then i else Scan(h, c, i + 1)
  }

  function HttpPick(h: seq<bool>, c: nat): (s: nat)
    requires |h| > 0
    ensures s < |h|
  {
    var k := Scan(h, c, 0);
    Slot(h, c, if k < |h| then k else 0)
  }

  class RoundRobinBalancer {
    var healthy: seq<bool>
    var counter: nat

    /** A new balancer serves each counter value its own place. */
    constructor (servers: nat)
      ensures healthy == AllUp(servers) && counter == 0
      ensures servers > 0 ==> forall c: nat :: c < U64 ==> HttpPick(healthy, c) == c % servers
    {
      healthy := AllUp(servers);
      counter := 0;
      if servers > 0 {
        forall c: nat | c < U64
          ensures HttpPick(AllUp(servers), c) == c % servers
        {
          NoWrap(c);
          PickAllUp(servers, c);
        }
      }
    }

    method NextServer() returns (server: Option<nat>)
      modifies this`counter
      ensures |healthy| == 0 ==> server == None && counter == old(counter)
      ensures |healthy| > 0 ==> server == Some(HttpPick(healthy, old(counter))) && counter == Wrap(old(counter) + 1)
    {
      if |healthy| == 0 {
        return None;
      }
      var start := counter;
      counter := Wrap(counter + 1);
      for i := 0 to |healthy|
        invariant Scan(healthy, start, 0) == Scan(healthy, start, i)
      {
        var idx := Slot(healthy, start, i);
        if healthy[idx] {
          return Some(idx);
        }
      }
      return Some(Slot(healthy, start, 0));
    }

    /** A server that is marked down gets no request while another one is healthy, wherever the wrap
        does not show. */
    method Mark(index: nat, up: bool)
      modifies this`healthy
      ensures healthy == if index < |old(healthy)| then old(healthy)[index := up] else old(healthy)
      ensures index < |healthy| && !up && SomeHealthy(healthy) ==>
                forall c: nat :: Smooth(|healthy|, c, |healthy|) ==> HttpPick(healthy, c) != index
    {
      if index < |healthy| {
        healthy := healthy[index := up];
        if SomeHealthy(healthy) {
          forall c: nat | Smooth(|healthy|, c, |healthy|)
            ensures healthy[HttpPick(healthy, c)]
          {
            HttpPickSeeks(healthy, c);
          }
        }
      }
    }
  }

  lemma {:induction false} ScanIsNext(h: seq<bool>, c: nat, i: nat, u: nat)
    requires |h| > 0 && i < |h| && Smooth(|h|, c, |h|)
    requires c + i <= u < c + |h| && Up(h, u)
    ensures Scan(h, c, i) < |h| && c + Scan(h, c, i) == Next(h, c + i, |h| - 1 - i)
    decreases |h| - i
  {
    PlainUp(h, c, i);
    if Up(h, c + i) {
    } else {
      ScanIsNext(h, c, i + 1, u);
    }
  }

  /** Where the wrap does not show, a pick is the first healthy server at or after the counter. */
  lemma HttpPickSeeks(h: seq<bool>, c: nat)
    requires SomeHealthy(h) && Smooth(|h|, c, |h|)
    ensures HttpPick(h, c) == Seek(h, c) % |h| && h[HttpPick(h, c)]
  {
    NextWithinTurn(h, c);
    ScanIsNext(h, c, 0, Seek(h, c));
    PlainSlot(h, c, Scan(h, c, 0));
    PlainUp(h, c, Scan(h, c, 0));
  }

  lemma PlainUp(h: seq<bool>, c: nat, i: nat)
    requires |h| > 0 && Smooth(|h|, c + i, 1)
    ensures h[Slot(h, c, i)] == Up(h, c + i)
  {
    PlainSlot(h, c, i);
    UpIs(h, c + i);
  }

  lemma PlainSlot(h: seq<bool>, c: nat, i: nat)
    requires |h| > 0 && Smooth(|h|, c + i, 1)
    ensures Slot(h, c, i) == (c + i) % |h|
  {
    WrapKeepsResidue(c + i, |h|);
  }

  lemma SlotWraps(h: seq<bool>, c: nat, d: nat, i: nat)
    requires |h| > 0 && d == Wrap(c)
    ensures Slot(h, d, i) == Slot(h, c, i)
  {
    WrapTwice(c, i);
  }

  lemma {:induction false} ScanWraps(h: seq<bool>, c: nat, d: nat, i: nat)
    requires 0 < |h| && i <= |h| && d == Wrap(c)
    ensures Scan(h, d, i) == Scan(h, c, i)
    decreases |h| - i
  {
    if i == |h| {
    } else {
      SlotWraps(h, c, d, i);
      ScanWraps(h, c, d, i + 1);
    }
  }

  lemma PickWraps(h: seq<bool>, c: nat)
    requires |h| > 0
    ensures HttpPick(h, Wrap(c)) == HttpPick(h, c)
  {
    ScanWraps(h, c, Wrap(c), 0);
    var k := Scan(h, c, 0);
    SlotWraps(h, c, Wrap(c), if k < |h| then k else 0);
  }

  /** How many of `m` consecutive picks, starting at counter `c`, choose server `s`. */
  function HttpPicks(h: seq<bool>, c: nat, m: nat, s: nat): nat
    requires |h| > 0
  {
    if m == 0 then 0 else HttpPicks(h, c, m - 1, s) + if HttpPick(h, Wrap(c + m - 1)) == s then 1 else 0
  }

  /** The same count on the endless ring. */
  function Landings(h: seq<bool>, c: nat, m: nat, s: nat): nat
    requires |h| > 0
  {
    if m == 0 then 0 else Landings(h, c, m - 1, s) + if Seek(h, c + m - 1) % |h| == s then 1 else 0
  }

  lemma {:induction false} LandingsDropFirst(h: seq<bool>, c: nat, m: nat, s: nat)
    requires |h| > 0
    ensures Landings(h, c, m + 1, s) == Landings(h, c + 1, m, s) + if Seek(h, c) % |h| == s then 1 else 0
  {
    if m == 0 {
    } else {
      LandingsDropFirst(h, c, m - 1, s);
    }
  }

  lemma SeekTurn(h: seq<bool>, c: nat)
    requires SomeHealthy(h)
    ensures Seek(h, c + |h|) == Seek(h, c) + |h| && Seek(h, c + |h|) % |h| == Seek(h, c) % |h|
  {
    NextWithinTurn(h, c);
    var n, q := |h|, Seek(h, c);
    UpTurn(h, q);
    forall x | c + n <= x < q + n ensures !Up(h, x) {
      UpTurn(h, x - n);
    }
    SeekIs(h, c + n, q + n);
    ModStep(q, n);
  }

  lemma {:induction false} LandingsAnywhere(h: seq<bool>, c: nat, s: nat)
    requires SomeHealthy(h)
    ensures Landings(h, c, |h|, s) == Landings(h, 0, |h|, s)
  {
    if c == 0 {
    } else {
      LandingsAnywhere(h, c - 1, s);
      LandingsDropFirst(h, c - 1, |h|, s);
      SeekTurn(h, c - 1);
    }
  }

  /** The length of the cyclic run of unhealthy servers just before `s`, counted from `k` on. */
  function Gap(h: seq<bool>, s: nat, k: nat): (g: nat)
    requires s < |h| && k < |h|
    ensures k <= g < |h|
    decreases |h| - k
  {
    if k == |h| - 1 || Up(h, s + |h| - 1 - k) then k else Gap(h, s, k + 1)
  }

  lemma DownMore(h: seq<bool>, a: nat, b: nat)
    requires |h| > 0 && !Up(h, a) && Down(h, a + 1, b)
    ensures Down(h, a, b)
  {
  }

  lemma {:induction false} GapIsRun(h: seq<bool>, s: nat, k: nat)
    requires s < |h| && k < |h|
    requires Down(h, s + |h| - k, s + |h|)
    ensures Down(h, s + |h| - Gap(h, s, k), s + |h|)
    ensures Gap(h, s, k) < |h| - 1 ==> Up(h, s + |h| - 1 - Gap(h, s, k))
    decreases |h| - k
  {
    var e := s + |h| - 1 - k;
    if k == |h| - 1 || Up(h, e) {
    } else {
      DownMore(h, e, s + |h|);
      GapIsRun(h, s, k + 1);
    }
  }

  lemma UpAfterTurn(h: seq<bool>, s: nat)
    requires s < |h|
    ensures Up(h, s + |h|) == h[s]
  {
    assert Place(s + |h|, |h|) == Place(s, |h|);
  }

  lemma LandsFromGap(h: seq<bool>, s: nat, p: nat)
    requires s < |h| && h[s] && s < p <= s + |h| && p >= s + |h| - Gap(h, s, 0)
    ensures Seek(h, p) == s + |h|
  {
    GapIsRun(h, s, 0);
    UpAfterTurn(h, s);
    SeekIs(h, p, s + |h|);
  }

  lemma LandsBeforeGap(h: seq<bool>, s: nat, p: nat)
    requires s < |h| && h[s] && s < p < s + |h| - Gap(h, s, 0)
    ensures Seek(h, p) < s + |h|
  {
    GapIsRun(h, s, 0);
    NextIsFirst(h, p, |h| - 1, s + |h| - 1 - Gap(h, s, 0));
  }

  lemma OnlyFullTurn(q: nat, s: nat, n: nat)
    requires s < n && s < q <= s + n
    ensures q % n == s <==> q == s + n
  {
    ModStep(s, n);
    if q < s + n {
      ModApart(s, q, n);
    }
  }

  /** In the turn that ends at `s`, exactly the last positions, those of the gap and of `s` itself,
      land on `s`. */
  lemma LandsInGap(h: seq<bool>, s: nat, p: nat)
    requires s < |h| && h[s] && s < p <= s + |h|
    ensures Seek(h, p) % |h| == s <==> p >= s + |h| - Gap(h, s, 0)
  {
    if p >= s + |h| - Gap(h, s, 0) {
      LandsFromGap(h, s, p);
    } else {
      LandsBeforeGap(h, s, p);
    }
    OnlyFullTurn(Seek(h, p), s, |h|);
  }

  lemma {:induction false} CountLandings(h: seq<bool>, s: nat, m: nat)
    requires s < |h| && h[s] && m <= |h|
    ensures var tail := |h| - 1 - Gap(h, s, 0);
            Landings(h, s + 1, m, s) == if m <= tail then 0 else m - tail
  {
    if m == 0 {
    } else {
      CountLandings(h, s, m - 1);
      LandsInGap(h, s, s + m);
    }
  }

  lemma {:induction false} PicksAreLandings(h: seq<bool>, c: nat, m: nat, s: nat)
    requires SomeHealthy(h) && (m > 0 ==> Smooth(|h|, c + m - 1, |h|))
    ensures HttpPicks(h, c, m, s) == Landings(h, c, m, s)
  {
    if m == 0 {
    } else {
      PicksAreLandings(h, c, m - 1, s);
      HttpPickSeeks(h, c + m - 1);
      PickWraps(h, c + m - 1);
    }
  }

  /** HTTP fairness: with fixed health, any full round of picks in which the wrap does not show
      chooses each healthy server once, plus once for every unhealthy server in the run just before
      it. */
  lemma HttpFairness(h: seq<bool>, c: nat, s: nat)
    requires s < |h| && h[s] && Smooth(|h|, c, 2 * |h| - 1)
    ensures HttpPicks(h, c, |h|, s) == 1 + Gap(h, s, 0)
  {
    PicksAreLandings(h, c, |h|, s);
    LandingsAnywhere(h, c, s);
    LandingsAnywhere(h, s + 1, s);
    CountLandings(h, s, |h|);
  }

  // ---- Tallies of ring positions ----

  /** Is position `p` healthy and, when `who` names a server, that server? */
  predicate Hit(h: seq<bool>, who: Option<nat>, p: nat)
    requires |h| > 0
  {
    Up(h, p) && (who.None? || p % |h| == who.value)
  }

  /** How many positions from `a` up to `b` are hits. */
  function Tally(h: seq<bool>, who: Option<nat>, a: nat, b: nat): nat
    requires |h| > 0 && a <= b
    decreases b
  {
    if a == b then 0 else Tally(h, who, a, b - 1) + if Hit(h, who, b - 1) then 1 else 0
  }

  lemma {:induction false} TallySplits(h: seq<bool>, who: Option<nat>, a: nat, b: nat, c: nat)
    requires |h| > 0 && a <= b <= c
    ensures Tally(h, who, a, c) == Tally(h, who, a, b) + Tally(h, who, b, c)
    decreases c
  {
    if b == c {
    } else {
      TallySplits(h, who, a, b, c - 1);
    }
  }

  lemma {:induction false} TallyFlat(h: seq<bool>, who: Option<nat>, a: nat, b: nat)
    requires |h| > 0 && a <= b && Down(h, a, b)
    ensures Tally(h, who, a, b) == 0
    decreases b
  {
    if a == b {
    } else {
      TallyFlat(h, who, a, b - 1);
    }
  }

  lemma {:induction false} TallyOfOneAtMostAll(h: seq<bool>, who: Option<nat>, a: nat, b: nat)
    requires |h| > 0 && a <= b
    ensures Tally(h, who, a, b) <= Tally(h, None, a, b)
    decreases b
  {
    if a >= b {
    } else {
      TallyOfOneAtMostAll(h, who, a, b - 1);
    }
  }

  lemma {:induction false} TallyFromZero(h: seq<bool>, s: nat, b: nat)
    requires s < |h| && b <= |h|
    ensures Tally(h, None, 0, b) == CountTo(h, b)
    ensures Tally(h, Some(s), 0, b) == if s < b && h[s] then 1 else 0
  {
    if b == 0 {
    } else {
      TallyFromZero(h, s, b - 1);
      DivModOf(b - 1, 0, b - 1, |h|);
    }
  }

  lemma HitTurn(h: seq<bool>, who: Option<nat>, p: nat)
    requires |h| > 0
    ensures Hit(h, who, p + |h|) == Hit(h, who, p)
  {
    ModStep(p, |h|);
  }

  lemma {:induction false} TallyTurn(h: seq<bool>, who: Option<nat>, c: nat)
    requires |h| > 0
    ensures Tally(h, who, c, c + |h|) == Tally(h, who, 0, |h|)
  {
    if c == 0 {
    } else {
      TallyTurn(h, who, c - 1);
      HitTurn(h, who, c - 1);
      TallySplits(h, who, c - 1, c, c + |h|);
      assert Tally(h, who, c - 1, c - 1) == 0;
    }
  }

  /** A full turn from anywhere visits every healthy server exactly once. */
  lemma TurnVisitsEach(h: seq<bool>, s: nat, c: nat)
    requires s < |h|
    ensures Tally(h, None, c, c + |h|) == CountTo(h, |h|)
    ensures Tally(h, Some(s), c, c + |h|) == if h[s] then 1 else 0
  {
    TallyTurn(h, None, c);
    TallyTurn(h, Some(s), c);
    TallyFromZero(h, s, |h|);
  }

  // ---- The TCP service ----

  /** The retry loop from counter `c` with some attempts behind it: the server returned and the
      counter left behind. */
  function TcpSearch(h: seq<bool>, c: nat, attempts: nat): (nat, nat)
    requires attempts < |h|
    decreases |h| - attempts
  {
    var idx := c % |h|;
    if h[idx] then (idx, Wrap(c + 1))
    else if attempts + 1 >= |h| then (0, Wrap(c + 1))
    else TcpSearch(h, Wrap(c + 1), attempts + 1)
  }

  function TcpPick(h: seq<bool>, c: nat): (nat, nat)
    requires |h| > 0
  {
    if CountTo(h, |h|) == 0 then (0, c) else TcpSearch(h, c, 0)
  }

  class TcpService {
    var healthy: seq<bool>
    var counter: nat

    constructor (servers: nat)
      ensures healthy == seq(servers, _ => true) && counter == 0
    {
      healthy := seq(servers, _ => true);
      counter := 0;
    }

    method HealthyCount() returns (count: nat)
      ensures count == CountTo(healthy, |healthy|)
    {
      count := 0;
      for i := 0 to |healthy|
        invariant count == CountTo(healthy, i)
      {
        if healthy[i] {
          count := count + 1;
        }
      }
    }

    method NextServer() returns (server: Option<nat>)
      modifies this`counter
      ensures |healthy| == 0 ==> server == None && counter == old(counter)
      ensures |healthy| > 0 ==> server.Some? && (server.value, counter) == TcpPick(healthy, old(counter))
    {
      if |healthy| == 0 {
        return None;
      }
      var healthyCount := HealthyCount();
      if healthyCount == 0 {
        return Some(0);
      }
      var attempts := 0;
      while true
        invariant attempts < |healthy|
        invariant TcpSearch(healthy, old(counter), 0) == TcpSearch(healthy, counter, attempts)
        decreases |healthy| - attempts
      {
        var idx := counter % |healthy|;
        counter := Wrap(counter + 1);
        if healthy[idx] {
          return Some(idx);
        }
        attempts := attempts + 1;
        if attempts >= |healthy| {
          return Some(0);
        }
      }
    }
  }

  lemma {:induction false} CountSome(h: seq<bool>, n: nat)
    requires n <= |h| && CountTo(h, n) > 0
    ensures exists i :: 0 <= i < n && h[i]
  {
    if h[n - 1] {
    } else {
      CountSome(h, n - 1);
    }
  }

  lemma {:induction false} TcpSearchSeeks(h: seq<bool>, c: nat, attempts: nat, u: nat)
    requires attempts < |h| && c <= u < c + |h| - attempts && Up(h, u) && Smooth(|h|, u, 1)
    ensures var q := Next(h, c, |h| - 1 - attempts);
            TcpSearch(h, Wrap(c), attempts) == (q % |h|, Wrap(q + 1))
    decreases |h| - attempts
  {
    WrapTwice(c, 1);
    WrapKeepsResidue(c, |h|);
    UpIs(h, c);
    if Up(h, c) {
    } else {
      TcpSearchSeeks(h, c + 1, attempts + 1, u);
    }
  }

  /** With a healthy server, and where the wrap does not show before it, a call returns the next
      healthy server and stops right behind it: the all-checked fallback is never reached. */
  lemma TcpPickSeeks(h: seq<bool>, c: nat)
    requires CountTo(h, |h|) > 0 && Smooth(|h|, Seek(h, c), 1)
    ensures TcpPick(h, Wrap(c)) == (Seek(h, c) % |h|, Wrap(Seek(h, c) + 1))
    ensures h[Seek(h, c) % |h|]
  {
    CountSome(h, |h|);
    NextWithinTurn(h, c);
    TcpSearchSeeks(h, c, 0, Seek(h, c));
    UpIs(h, Seek(h, c));
  }

  /** How far `k` calls from `c` get on the endless ring. */
  function Passed(h: seq<bool>, c: nat, k: nat): (e: nat)
    requires |h| > 0
    ensures e >= c
  {
    if k == 0 then c else Seek(h, Passed(h, c, k - 1)) + 1
  }

  /** The counter after `k` calls, starting from `c`. */
  function TcpCounter(h: seq<bool>, c: nat, k: nat): nat
    requires |h| > 0
  {
    if k == 0 then c else TcpPick(h, TcpCounter(h, c, k - 1)).1
  }

  /** How many of the first `k` calls return server `s`. */
  function TcpPicks(h: seq<bool>, c: nat, k: nat, s: nat): nat
    requires |h| > 0
  {
    if k == 0 then 0 else TcpPicks(h, c, k - 1, s) + if TcpPick(h, TcpCounter(h, c, k - 1)).0 == s then 1 else 0
  }

  lemma OneTcpCall(h: seq<bool>, who: Option<nat>, c: nat, p: nat)
    requires CountTo(h, |h|) > 0 && c <= p
    ensures var q := Seek(h, p);
            Tally(h, who, c, q + 1) == Tally(h, who, c, p) + if who.None? || q % |h| == who.value then 1 else 0
  {
    CountSome(h, |h|);
    NextWithinTurn(h, p);
    var q := Seek(h, p);
    TallySplits(h, who, c, p, q);
    TallyFlat(h, who, p, q);
  }

  /** As many healthy positions as there are healthy servers do not take more than a turn. */
  lemma WithinTurn(h: seq<bool>, s: nat, c: nat, e: nat)
    requires s < |h| && c < e && Up(h, e - 1) && Tally(h, None, c, e) <= CountTo(h, |h|)
    ensures e <= c + |h|
  {
    if e > c + |h| {
      TurnVisitsEach(h, s, c);
      TallySplits(h, None, c, c + |h|, e - 1);
      assert false;
    }
  }

  /** From `c` to `e`, just behind a healthy position, are `k` healthy positions, `n` of them of `s`. */
  ghost predicate Tallied(h: seq<bool>, c: nat, s: nat, e: nat, k: nat, n: nat)
    requires |h| > 0
  {
    && c < e <= c + |h| && Up(h, e - 1)
    && Tally(h, None, c, e) == k && Tally(h, Some(s), c, e) == n
  }

  lemma TallyOneMore(h: seq<bool>, c: nat, s: nat, p: nat, k: nat, n: nat)
    requires s < |h| && k < CountTo(h, |h|) && c <= p
    requires Tally(h, None, c, p) == k && Tally(h, Some(s), c, p) == n
    ensures Tallied(h, c, s, Seek(h, p) + 1, k + 1, n + if Seek(h, p) % |h| == s then 1 else 0)
  {
    OneTcpCall(h, None, c, p);
    OneTcpCall(h, Some(s), c, p);
    CountSome(h, |h|);
    NextWithinTurn(h, p);
    WithinTurn(h, s, c, Seek(h, p) + 1);
  }

  /** After `k` calls the counter has passed exactly `k` healthy positions, and the calls returned
      exactly the servers at those positions. */
  lemma {:induction false} TcpCallsTally(h: seq<bool>, c: nat, k: nat, s: nat)
    requires s < |h| && k <= CountTo(h, |h|) && Smooth(|h|, c, |h|)
    ensures TcpCounter(h, Wrap(c), k) == Wrap(Passed(h, c, k))
    ensures if k == 0 then TcpPicks(h, Wrap(c), k, s) == 0
            else Tallied(h, c, s, Passed(h, c, k), k, TcpPicks(h, Wrap(c), k, s))
  {
    if k == 0 {
    } else {
      var p := Passed(h, c, k - 1);
      TcpCallsTally(h, c, k - 1, s);
      TallyOneMore(h, c, s, p, k - 1, TcpPicks(h, Wrap(c), k - 1, s));
      TcpPickSeeks(h, p);
    }
  }

  /** TCP fairness: with fixed health, any run of as many calls as there are healthy servers, with a
      turn in which the wrap does not show, returns each healthy server exactly once and no other. */
  lemma TcpFairness(h: seq<bool>, c: nat, s: nat)
    requires s < |h| && Smooth(|h|, c, |h|)
    ensures TcpPicks(h, Wrap(c), CountTo(h, |h|), s) == if h[s] then 1 else 0
  {
    var k := CountTo(h, |h|);
    TcpCallsTally(h, c, k, s);
    if k > 0 {
      WholeTally(h, c, s, Passed(h, c, k), TcpPicks(h, Wrap(c), k, s));
    } else {
      TurnVisitsEach(h, s, c);
      TallyOfOneAtMostAll(h, Some(s), c, c + |h|);
    }
  }

  /** Where all healthy servers have been passed, each has been passed once. */
  lemma WholeTally(h: seq<bool>, c: nat, s: nat, e: nat, n: nat)
    requires s < |h| && Tallied(h, c, s, e, CountTo(h, |h|), n)
    ensures n == if h[s] then 1 else 0
  {
    TurnVisitsEach(h, s, c);
    TallySplits(h, None, c, e, c + |h|);
    TallySplits(h, Some(s), c, e, c + |h|);
    TallyOfOneAtMostAll(h, Some(s), e, c + |h|);
  }

  // ---- Exactly when the wrap is harmless ----

  function AllUp(n: nat): seq<bool> {
    seq(n, _ => true)
  }

  /** With everyone healthy, one round of HTTP picks from counter `c` serves each server once. */
  ghost predicate EachOnce(n: nat, c: nat)
    requires n > 0
  {
    forall s :: 0 <= s < n ==> HttpPicks(AllUp(n), c, n, s) == 1
  }

  lemma PickAllUp(n: nat, c: nat)
    requires n > 0
    ensures HttpPick(AllUp(n), Wrap(c)) == Wrap(c) % n
  {
    NoWrap(Wrap(c));
  }

  lemma {:induction false} TwoHits(n: nat, c: nat, m: nat, s: nat, i: nat, j: nat)
    requires n > 0 && i < j < m
    requires Wrap(c + i) % n == s && Wrap(c + j) % n == s
    ensures HttpPicks(AllUp(n), c, m, s) >= 2
  {
    PickAllUp(n, c + m - 1);
    if j < m - 1 {
      TwoHits(n, c, m - 1, s, i, j);
    } else {
      OneHit(n, c, j, s, i);
    }
  }

  lemma {:induction false} OneHit(n: nat, c: nat, m: nat, s: nat, i: nat)
    requires n > 0 && i < m && Wrap(c + i) % n == s
    ensures HttpPicks(AllUp(n), c, m, s) >= 1
  {
    PickAllUp(n, c + m - 1);
    if i == m - 1 {
    } else {
      OneHit(n, c, m - 1, s, i);
    }
  }

  lemma {:induction false} SmoothPicks(n: nat, c: nat, m: nat, s: nat)
    requires n > 0 && Smooth(n, c, m)
    ensures HttpPicks(AllUp(n), c, m, s) == Tally(AllUp(n), Some(s), c, c + m)
  {
    if m == 0 {
    } else {
      SmoothPicks(n, c, m - 1, s);
      PickAllUp(n, c + m - 1);
      WrapKeepsResidue(c + m - 1, n);
    }
  }

  /** A round that crosses the wrap serves some server twice unless the ring divides 2^64. */
  lemma CrossingRepeats(n: nat, c: nat) returns (s: nat, i: nat, j: nat)
    requires n > 0 && c < U64 < c + n && U64 % n != 0
    ensures s < n && i < j < n && Wrap(c + i) % n == s && Wrap(c + j) % n == s
  {
    if U64 - c >= U64 % n {
      s, i, j := 0, U64 - c - U64 % n, U64 - c;
      AtLastMultiple(n, c + i);
      assert Wrap(c + j) == 0;
    } else {
      s, i, j := U64 % n - (U64 - c), 0, U64 % n;
      AroundTheWrap(n, c, s, j);
    }
  }

  lemma AroundTheWrap(n: nat, c: nat, s: nat, r: nat)
    requires n > 0 && c < U64 && r == U64 % n && s == r - (U64 - c)
    ensures Wrap(c) % n == s && Wrap(c + r) % n == s
  {
    ResidueBelow(U64, U64 - c, n);
    NoWrap(c);
    assert c + r == U64 + s;
    WrapPast(s);
    DivModOf(s, 0, s, n);
  }

  lemma AtLastMultiple(n: nat, p: nat)
    requires n > 0 && p + U64 % n == U64 && U64 % n != 0
    ensures Wrap(p) % n == 0
  {
    ResidueBelow(U64, U64 % n, n);
    NoWrap(p);
  }

  lemma ResidueBelow(u: nat, b: nat, n: nat)
    requires n > 0 && b <= u % n && b <= u
    ensures (u - b) % n == u % n - b
  {
    Split(u, n);
    DivModOf(u - b, u / n, u % n - b, n);
  }

  /** Every server gets exactly one request per round, from every counter value, exactly when the
      round stays clear of the wrap or the number of servers divides 2^64. */
  lemma WrapIsHarmlessExactly(n: nat, c: nat)
    requires n > 0 && c < U64 && n <= U64
    ensures EachOnce(n, c) <==> Smooth(n, c, n)
  {
    if Smooth(n, c, n) {
      forall s | 0 <= s < n ensures HttpPicks(AllUp(n), c, n, s) == 1 {
        SmoothPicks(n, c, n, s);
        TurnVisitsEach(AllUp(n), s, c);
      }
    } else {
      var s, i, j := CrossingRepeats(n, c);
      TwoHits(n, c, n, s, i, j);
    }
  }

  /** No offset from `i` on leads from counter `c` to a healthy server. */
  ghost predicate AllMissed(h: seq<bool>, c: nat, i: nat)
    requires |h| > 0
  {
    forall k :: i <= k < |h| ==> !h[Slot(h, c, k)]
  }

  lemma {:induction false} TcpSearchRunsOut(h: seq<bool>, c: nat, d: nat, i: nat)
    requires i < |h| && AllMissed(h, c, i) && d == Wrap(c + i)
    ensures TcpSearch(h, d, i) == (0, Wrap(c + |h|))
    decreases |h| - i
  {
    assert d % |h| == Slot(h, c, i);
    WrapTwice(c + i, 1);
    if i + 1 < |h| {
      TcpSearchRunsOut(h, c, Wrap(c + i + 1), i + 1);
    }
  }

  /** A TCP call whose turn crosses the wrap and misses every healthy server returns the first server and
      leaves the counter a full turn ahead. */
  lemma TcpMissesTurn(h: seq<bool>, c: nat)
    requires CountTo(h, |h|) > 0 && c < U64 && AllMissed(h, c, 0)
    ensures TcpPick(h, c) == (0, Wrap(c + |h|))
  {
    NoWrap(c);
    TcpSearchRunsOut(h, c, c, 0);
  }

  // ---- With everyone down ----

  lemma {:induction false} ScanFindsNobody(h: seq<bool>, c: nat, i: nat)
    requires 0 < |h| && i <= |h| && !SomeHealthy(h)
    ensures Scan(h, c, i) == |h|
    decreases |h| - i
  {
    if i == |h| {
    } else {
      ScanFindsNobody(h, c, i + 1);
    }
  }

  /** With everyone down, picks go round as with everyone up. */
  lemma {:induction false} AllDownPicks(h: seq<bool>, c: nat, m: nat, s: nat)
    requires 0 < |h| && !SomeHealthy(h)
    ensures HttpPicks(h, c, m, s) == HttpPicks(AllUp(|h|), c, m, s)
  {
    if m == 0 {
    } else {
      AllDownPicks(h, c, m - 1, s);
      ScanFindsNobody(h, Wrap(c + m - 1), 0);
      PickAllUp(|h|, c + m - 1);
    }
  }

  /** One round of HTTP picks from counter `c` serves each server once. */
  ghost predicate ServesEach(h: seq<bool>, n: nat, c: nat)
    requires |h| > 0
  {
    forall s :: 0 <= s < n ==> HttpPicks(h, c, n, s) == 1
  }

  lemma AllDownServes(h: seq<bool>, n: nat, c: nat)
    requires 0 < |h| == n && !SomeHealthy(h)
    ensures ServesEach(h, n, c) <==> EachOnce(n, c)
  {
    forall s | 0 <= s < n
      ensures HttpPicks(h, c, n, s) == HttpPicks(AllUp(n), c, n, s)
    {
      AllDownPicks(h, c, n, s);
    }
  }

  /** With everyone down, a round serves each server once exactly when the wrap does not show in it. */
  lemma AllDownServedExactly(h: seq<bool>, n: nat, c: nat)
    requires 0 < |h| == n <= U64 && c < U64 && !SomeHealthy(h)
    ensures ServesEach(h, n, c) <==> Smooth(n, c, n)
  {
    AllDownServes(h, n, c);
    WrapIsHarmlessExactly(n, c);
  }

  lemma {:induction false} CountNone(h: seq<bool>, n: nat)
    requires n <= |h| && !SomeHealthy(h)
    ensures CountTo(h, n) == 0
  {
    if n == 0 {
    } else {
      CountNone(h, n - 1);
    }
  }

  /** With everyone down, every TCP call returns the first server and leaves the counter alone. */
  lemma {:induction false} TcpAllDown(h: seq<bool>, c: nat, k: nat, s: nat)
    requires 0 < |h| && !SomeHealthy(h)
    ensures TcpCounter(h, c, k) == c && TcpPicks(h, c, k, s) == if s == 0 then k else 0
  {
    if k == 0 {
    } else {
      TcpAllDown(h, c, k - 1, s);
      CountNone(h, |h|);
    }
  }

  // ---- Exactly when a healthy server is always found ----

  /** The server that no place of a turn across the wrap belongs to. */
  function MissedServer(n: nat, c: nat): nat
    requires n > 0 && c < U64 < c + n && U64 % n != 0
  {
    if U64 - c <= U64 % n then n - 1 else n - (U64 - c) + U64 % n - 1
  }

  lemma BeforeWrap(n: nat, c: nat, i: nat, a: nat, r: nat)
    requires n > 0 && r == U64 % n && a == U64 - c && i < a <= n && c < U64
    ensures (c + i) % n == if a - i <= r then r - (a - i) else n + r - (a - i)
  {
    Split(U64, n);
    var q := U64 / n;
    if a - i <= r {
      DivModOf(c + i, q, r - (a - i), n);
    } else {
      Distribute(q, 1, n);
      DivModOf(c + i, q - 1, n + r - (a - i), n);
    }
  }

  /** No offset from `i` on leads to server `u`. */
  ghost predicate PassedOver(n: nat, c: nat, u: nat, i: nat)
    requires n > 0
  {
    forall j :: i <= j < n ==> Server(n, c, j) != u
  }

  /** A turn that crosses the wrap unevenly passes over a server, and it is not the first one. */
  lemma TurnMisses(n: nat, c: nat, i: nat)
    requires n > 0 && c < U64 < c + n && U64 % n != 0 && n <= U64 && i < n
    ensures 0 < MissedServer(n, c) < n && Server(n, c, i) != MissedServer(n, c)
  {
    var a, r := U64 - c, U64 % n;
    if i < a {
      NoWrap(c + i);
      BeforeWrap(n, c, i, a, r);
    } else {
      WrapPast(i - a);
      assert c + i == U64 + (i - a);
      DivModOf(i - a, 0, i - a, n);
    }
  }

  /** Only server `u` is healthy. */
  function Only(n: nat, u: nat): (h: seq<bool>)
    ensures |h| == n && forall i :: 0 <= i < n ==> (h[i] <==> i == u)
  {
    seq(n, i => i == u)
  }

  lemma {:induction false} ScanMisses(n: nat, c: nat, u: nat, i: nat)
    requires n > 0 && u < n && i <= n && PassedOver(n, c, u, i)
    ensures Scan(Only(n, u), c, i) == n
    decreases n - i
  {
    if i == n {
    } else {
      assert Slot(Only(n, u), c, i) != u;
      ScanMisses(n, c, u, i + 1);
    }
  }

  lemma HttpMisses(n: nat, c: nat, u: nat)
    requires n > 0 && u < n && PassedOver(n, c, u, 0)
    ensures HttpPick(Only(n, u), c) != u
  {
    ScanMisses(n, c, u, 0);
    assert Server(n, c, 0) != u;
  }

  lemma {:induction false} TcpSearchMisses(n: nat, c: nat, u: nat, i: nat)
    requires n > 0 && u < n && i < n && PassedOver(n, c, u, i)
    ensures TcpSearch(Only(n, u), Wrap(c + i), i).0 == 0
    decreases n - i
  {
    assert Server(n, c, i) != u;
    WrapTwice(c + i, 1);
    if i == n - 1 {
    } else {
      TcpSearchMisses(n, c, u, i + 1);
    }
  }

  lemma {:induction false} OnlyCounts(n: nat, u: nat, k: nat)
    requires u < n && k <= n
    ensures CountTo(Only(n, u), k) == if u < k then 1 else 0
  {
    if k == 0 {
    } else {
      OnlyCounts(n, u, k - 1);
    }
  }

  lemma MissedIsPassedOver(n: nat, c: nat)
    requires n > 0 && c < U64 < c + n && U64 % n != 0 && n <= U64
    ensures 0 < MissedServer(n, c) < n && PassedOver(n, c, MissedServer(n, c), 0)
  {
    TurnMisses(n, c, 0);
    forall j | 0 <= j < n
      ensures Server(n, c, j) != MissedServer(n, c)
    {
      TurnMisses(n, c, j);
    }
  }

  /** A turn across the wrap, with just the passed-over server healthy. */
  lemma CrossingMisses(n: nat, c: nat) returns (u: nat)
    requires n > 0 && c < U64 && n <= U64 && !Smooth(n, c, n)
    ensures 0 < u < n && SomeHealthy(Only(n, u))
    ensures HttpPick(Only(n, u), c) != u && TcpPick(Only(n, u), c).0 == 0
  {
    u := MissedServer(n, c);
    MissedIsPassedOver(n, c);
    assert Only(n, u)[u];
    HttpMisses(n, c, u);
    OnlyCounts(n, u, n);
    NoWrap(c);
    TcpSearchMisses(n, c, u, 0);
  }

  ghost predicate HttpFindsHealthy(n: nat, c: nat)
    requires n > 0
  {
    forall h :: |h| == n && SomeHealthy(h) ==> h[HttpPick(h, c)]
  }

  ghost predicate TcpFindsHealthy(n: nat, c: nat)
    requires n > 0
  {
    forall h :: |h| == n && SomeHealthy(h) ==> TcpPick(h, c).0 < n && h[TcpPick(h, c).0]
  }

  lemma TcpFinds(h: seq<bool>, c: nat)
    requires SomeHealthy(h) && c < U64 && Smooth(|h|, c, |h|)
    ensures TcpPick(h, c).0 < |h| && h[TcpPick(h, c).0]
  {
    var i :| 0 <= i < |h| && h[i];
    CountOne(h, |h|, i);
    NoWrap(c);
    TcpPickSeeks(h, c);
  }

  lemma {:induction false} CountOne(h: seq<bool>, n: nat, i: nat)
    requires i < n <= |h| && h[i]
    ensures CountTo(h, n) > 0
  {
    if i == n - 1 {
    } else {
      CountOne(h, n - 1, i);
    }
  }

  /** From a counter value, both rotations return a healthy server whenever there is one, for every
      health, exactly when a turn stays clear of the wrap or the number of servers divides 2^64. */
  lemma HealthyFoundExactly(n: nat, c: nat)
    requires 0 < n <= U64 && c < U64
    ensures HttpFindsHealthy(n, c) <==> Smooth(n, c, n)
    ensures TcpFindsHealthy(n, c) <==> Smooth(n, c, n)
  {
    if Smooth(n, c, n) {
      forall h | |h| == n && SomeHealthy(h)
        ensures h[HttpPick(h, c)] && TcpPick(h, c).0 < n && h[TcpPick(h, c).0]
      {
        HttpPickSeeks(h, c);
        TcpFinds(h, c);
      }
    } else {
      var u := CrossingMisses(n, c);
      var h := Only(n, u);
      assert !h[HttpPick(h, c)] && !h[TcpPick(h, c).0];
    }
  }

  // ---- Exactly when the rotations are fair ----

  ghost predicate HttpFair(n: nat, c: nat)
    requires n > 0
  {
    forall h: seq<bool>, s: nat :: |h| == n && s < n && h[s] ==> HttpPicks(h, c, n, s) == 1 + Gap(h, s, 0)
  }

  ghost predicate TcpFair(n: nat, c: nat)
    requires n > 0
  {
    forall h: seq<bool>, s: nat :: |h| == n && s < n ==>
      TcpPicks(h, c, CountTo(h, n), s) == if h[s] then 1 else 0
  }

  lemma {:induction false} PicksMiss(h: seq<bool>, c: nat, m: nat, s: nat, k: nat)
    requires |h| > 0 && k < m && HttpPick(h, Wrap(c + k)) != s
    ensures HttpPicks(h, c, m, s) < m
  {
    if k == m - 1 {
      PicksAtMost(h, c, m - 1, s);
    } else {
      PicksMiss(h, c, m - 1, s, k);
    }
  }

  lemma {:induction false} PicksAtMost(h: seq<bool>, c: nat, m: nat, s: nat)
    requires |h| > 0
    ensures HttpPicks(h, c, m, s) <= m
  {
    if m == 0 {
    } else {
      PicksAtMost(h, c, m - 1, s);
    }
  }

  lemma {:induction false} GapOfOnly(n: nat, u: nat, k: nat)
    requires u < n && k < n
    ensures Gap(Only(n, u), u, k) == n - 1
    decreases n - k
  {
    var p := u + n - 1 - k;
    if k == n - 1 {
    } else {
      assert Place(p, n) == if p < n then p else p - n;
      GapOfOnly(n, u, k + 1);
    }
  }

  /** Some pick of the round starts a turn that crosses the wrap. */
  lemma RoundCrosses(n: nat, c: nat) returns (u: nat, k: nat)
    requires 0 < n <= U64 && c < U64 && !Smooth(n, c, 2 * n - 1)
    ensures u < n && k < n && HttpPick(Only(n, u), Wrap(c + k)) != u
  {
    k := if c + n - 1 < U64 then n - 1 else 0;
    NoWrap(c + k);
    u := CrossingMisses(n, c + k);
  }

  /** The HTTP rotation gives every healthy server its one request and those of the unhealthy run before
      it, for every health, exactly when all turns of the round stay clear of the wrap or the number of
      servers divides 2^64. */
  lemma HttpFairExactly(n: nat, c: nat)
    requires 0 < n <= U64 && c < U64
    ensures HttpFair(n, c) <==> Smooth(n, c, 2 * n - 1)
  {
    if Smooth(n, c, 2 * n - 1) {
      forall h: seq<bool>, s: nat | |h| == n && s < n && h[s]
        ensures HttpPicks(h, c, n, s) == 1 + Gap(h, s, 0)
      {
        HttpFairness(h, c, s);
      }
    } else {
      var u, k := RoundCrosses(n, c);
      PicksMiss(Only(n, u), c, n, u, k);
      GapOfOnly(n, u, 0);
    }
  }

  /** The TCP rotation returns every healthy server once in as many calls, for every health, exactly
      when a turn stays clear of the wrap or the number of servers divides 2^64. */
  lemma TcpFairExactly(n: nat, c: nat)
    requires 0 < n <= U64 && c < U64
    ensures TcpFair(n, c) <==> Smooth(n, c, n)
  {
    NoWrap(c);
    if Smooth(n, c, n) {
      forall h: seq<bool>, s: nat | |h| == n && s < n
        ensures TcpPicks(h, c, CountTo(h, n), s) == if h[s] then 1 else 0
      {
        TcpFairness(h, c, s);
      }
    } else {
      var u := CrossingMisses(n, c);
      var h := Only(n, u);
      OnlyCounts(n, u, n);
      assert TcpPicks(h, c, 1, u) == 0;
    }
  }
}
