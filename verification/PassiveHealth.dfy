/** Passive health checking: every proxied response is recorded against its backend, and the verdict
    is carried over to the load balancers' health flags. */
module PassiveHealth {
  import opened Sequences
  import opened Words
  import opened Wrappers

  datatype Config = Config(
    failureThreshold: nat,
    successThreshold: nat,
    failureCodes: set<nat>,
    slowAfterMs: Option<nat>,
    window: nat,
    recovery: nat)

  datatype Outcome = Outcome(at: nat, failed: bool)

  datatype HealthChange = NoChange | BecameHealthy | BecameUnhealthy

  datatype Backend = Backend(
    healthy: bool,
    consecutiveFailures: nat,
    consecutiveSuccesses: nat,
    unhealthySince: Option<nat>,
    entries: seq<Outcome>)

  function NewBackend(): Backend {
    Backend(true, 0, 0, None, [])
  }

  predicate IsFailure(cfg: Config, status: nat, elapsedMs: nat) {
    status in cfg.failureCodes || (cfg.slowAfterMs.Some? && elapsedMs > cfg.slowAfterMs.value)
  }

  /** A response counts as slow from the first full millisecond above the threshold on. */
  lemma SlowFromNextMillisecond(cfg: Config, status: nat, us: nat)
    ensures IsFailure(cfg, status, us / 1000)
       <==> status in cfg.failureCodes || (cfg.slowAfterMs.Some? && us >= (cfg.slowAfterMs.value + 1) * 1000)
  {
  }

  // ---- The sliding window ----

  /** The outcomes younger than `window` at `now`. */
  function Recent(es: seq<Outcome>, window: nat, now: nat): seq<Outcome> {
    if es == [] then []
    else
      var last := es[|es| - 1];
      Recent(es[..|es| - 1], window, now) + if now < last.at + window then [last] else []
  }

  function Failures(es: seq<Outcome>): nat {
    if es == [] then 0 else Failures(es[..|es| - 1]) + if es[|es| - 1].failed then 1 else 0
  }

  class SlidingWindow {
    const duration: nat
    var entries: seq<Outcome>

    constructor (duration: nat)
      ensures this.duration == duration && entries == []
    {
      this.duration := duration;
      entries := [];
    }

    /** Drop what has aged out, append the new outcome and count the failures that are left. */
    method Add(now: nat, failed: bool) returns (failures: nat, total: nat)
      modifies this`entries
      ensures entries == Recent(old(entries), duration, now) + [Outcome(now, failed)]
      ensures failures == Failures(entries) && total == |entries|
    {
      var kept := [];
      for i := 0 to |entries|
        invariant kept == Recent(entries[..i], duration, now)
      {
        assert entries[..i + 1][..i] == entries[..i];
        if entries[i].at + duration > now {
          kept := kept + [entries[i]];
        }
      }
      assert entries[..|entries|] == entries;
      entries := kept + [Outcome(now, failed)];
      failures := 0;
      for i := 0 to |entries|
        invariant failures == Failures(entries[..i])
      {
        assert entries[..i + 1][..i] == entries[..i];
        if entries[i].failed {
          failures := failures + 1;
        }
      }
      assert entries[..|entries|] == entries;
      total := |entries|;
    }
  }

  lemma RecentAppend(es: seq<Outcome>, e: Outcome, window: nat, now: nat)
    ensures Recent(es + [e], window, now) == Recent(es, window, now) + if now < e.at + window then [e] else []
  {
    assert (es + [e])[..|es|] == es;
  }

  /** Pruning early loses nothing that pruning late would keep. */
  lemma {:induction false} RecentTwice(es: seq<Outcome>, window: nat, now: nat, later: nat)
    requires now <= later
    ensures Recent(Recent(es, window, now), window, later) == Recent(es, window, later)
  {
    if es == [] {
    } else {
      var init, last := es[..|es| - 1], es[|es| - 1];
      RecentTwice(init, window, now, later);
      if now < last.at + window {
        RecentAppend(Recent(init, window, now), last, window, later);
      } else {
        assert Recent(es, window, now) == Recent(init, window, now);
      }
    }
  }

  /** The entries a window keeps after a whole history of additions. */
  function Pruned(history: seq<Outcome>, window: nat): seq<Outcome> {
    if history == [] then []
    else
      var last := history[|history| - 1];
      Recent(Pruned(history[..|history| - 1], window), window, last.at) + [last]
  }

  ghost predicate Ordered(history: seq<Outcome>, end: nat) {
    && (forall i :: 0 <= i < |history| ==> history[i].at <= end)
    && forall i, j :: 0 <= i <= j < |history| ==> history[i].at <= history[j].at
  }

  /** The pruned window shows the same recent outcomes, and so the same failure count, as the full
      timestamped history would, at every later time. */
  lemma {:induction false} WindowIsHistory(history: seq<Outcome>, window: nat, now: nat)
    requires Ordered(history, now)
    ensures Recent(Pruned(history, window), window, now) == Recent(history, window, now)
  {
    if history == [] {
    } else {
      var init, last := history[..|history| - 1], history[|history| - 1];
      WindowIsHistory(init, window, now);
      var kept := Recent(Pruned(init, window), window, last.at);
      RecentTwice(Pruned(init, window), window, last.at, now);
      RecentAppend(kept, last, window, now);
    }
  }

  // ---- Recording a response ----

  /** The verdict once the window has been brought up to date. */
  function Judged(cfg: Config, b: Backend, failed: bool, now: nat, entries: seq<Outcome>, failures: nat)
    : (Backend, HealthChange)
  {
    var fails := if failed then b.consecutiveFailures + 1 else 0;
    var successes := if failed then 0 else b.consecutiveSuccesses + 1;
    if b.healthy then
      if fails >= cfg.failureThreshold || failures >= cfg.failureThreshold then
        (Backend(false, fails, 0, Some(now), entries), BecameUnhealthy)
      else (Backend(true, fails, successes, b.unhealthySince, entries), NoChange)
    else
      if successes >= cfg.successThreshold then
        (Backend(true, 0, successes, None, entries), BecameHealthy)
      else (Backend(false, fails, successes, b.unhealthySince, entries), NoChange)
  }

  /** The backend after one response, with the change it caused. */
  function Recorded(cfg: Config, b: Backend, failed: bool, now: nat): (Backend, HealthChange) {
    var entries := Recent(b.entries, cfg.window, now) + [Outcome(now, failed)];
    Judged(cfg, b, failed, now, entries, Failures(entries))
  }

  /** A change is reported exactly when the verdict flips. */
  lemma ChangeIsFlip(cfg: Config, b: Backend, failed: bool, now: nat)
    ensures var (b', change) := Recorded(cfg, b, failed, now);
            && (change == BecameUnhealthy <==> b.healthy && !b'.healthy)
            && (change == BecameHealthy <==> !b.healthy && b'.healthy)
  {
  }

  type Verdicts = map<string, Backend>

  function StateOf(backends: Verdicts, url: string): Backend {
    if url in backends then backends[url] else NewBackend()
  }

  predicate IsHealthy(backends: Verdicts, url: string) {
    StateOf(backends, url).healthy
  }

  /** A backend may be tried while it is healthy, and again once it has been out for long enough. */
  predicate MayTry(cfg: Config, b: Backend, now: nat) {
    b.healthy || (b.unhealthySince.Some? && b.unhealthySince.value + cfg.recovery <= now)
  }

  /** What is kept for the statistics: requests, failures and a moving average of response times in
      microseconds, all in 64 bits. */
  datatype Stats = Stats(total: nat, failures: nat, averageUs: nat)

  function Average(before: nat, us: nat): nat {
    if before == 0 then Wrap(us) else Wrap(Wrap(before * 9) + us) / 10
  }

  function Counted(s: Stats, failed: bool, us: nat): Stats {
    Stats(Wrap(s.total + 1), if failed then Wrap(s.failures + 1) else s.failures, Average(s.averageUs, us))
  }

  function StatsOf(stats: map<string, Stats>, url: string): Stats {
    if url in stats then stats[url] else Stats(0, 0, 0)
  }

  class PassiveHealthChecker {
    const config: Config
    var backends: Verdicts
    var stats: map<string, Stats>

    constructor (config: Config)
      ensures this.config == config && backends == map[] && stats == map[]
    {
      this.config := config;
      backends := map[];
      stats := map[];
    }

    method CanTry(url: string, now: nat) returns (may: bool)
      ensures may == MayTry(config, StateOf(backends, url), now)
    {
      if url in backends {
        var state := backends[url];
        if state.healthy {
          return true;
        }
        if state.unhealthySince.Some? {
          return now >= state.unhealthySince.value + config.recovery;
        }
        return false;
      }
      return true;
    }

    method RecordResponse(url: string, status: nat, elapsedUs: nat, now: nat) returns (change: HealthChange)
      modifies this`backends, this`stats
      ensures stats == old(stats)[url := Counted(StatsOf(old(stats), url), IsFailure(config, status, elapsedUs / 1000), elapsedUs)]
      ensures var (b, c) := Recorded(config, StateOf(old(backends), url), IsFailure(config, status, elapsedUs / 1000), now);
              backends == old(backends)[url := b] && change == c
      ensures change == BecameUnhealthy <==> IsHealthy(old(backends), url) && !IsHealthy(backends, url)
      ensures change == BecameHealthy <==> !IsHealthy(old(backends), url) && IsHealthy(backends, url)
    {
      var failed := IsFailure(config, status, elapsedUs / 1000);
      UpdateStats(url, failed, elapsedUs);
      var state := if url in backends then backends[url] else NewBackend();
      ghost var before := state;
      var window := new SlidingWindow(config.window);
      window.entries := state.entries;
      var failures, _ := window.Add(now, failed);
      state, change := Judge(state, failed, now, window.entries, failures);
      assert (state, change) == Recorded(config, before, failed, now);
      ChangeIsFlip(config, before, failed, now);
      backends := backends[url := state];
    }

    method UpdateStats(url: string, failed: bool, us: nat)
      modifies this`stats
      ensures stats == old(stats)[url := Counted(StatsOf(old(stats), url), failed, us)]
    {
      var s := StatsOf(stats, url);
      var failures := s.failures;
      if failed {
        failures := Wrap(failures + 1);
      }
      var average := us;
      if s.averageUs == 0 {
        average := Wrap(us);
      } else {
        average := Wrap(Wrap(s.averageUs * 9) + us) / 10;
      }
      stats := stats[url := Stats(Wrap(s.total + 1), failures, average)];
    }

    method Judge(before: Backend, failed: bool, now: nat, entries: seq<Outcome>, failures: nat)
      returns (state: Backend, change: HealthChange)
      ensures (state, change) == Judged(config, before, failed, now, entries, failures)
    {
      state := before.(entries := entries);
      if failed {
        state := state.(consecutiveFailures := state.consecutiveFailures + 1, consecutiveSuccesses := 0);
      } else {
        state := state.(consecutiveSuccesses := state.consecutiveSuccesses + 1, consecutiveFailures := 0);
      }
      change := NoChange;
      if state.healthy {
        if state.consecutiveFailures >= config.failureThreshold || failures >= config.failureThreshold {
          state := state.(healthy := false, unhealthySince := Some(now), consecutiveSuccesses := 0);
          change := BecameUnhealthy;
        }
      } else if state.consecutiveSuccesses >= config.successThreshold {
        state := state.(healthy := true, unhealthySince := None, consecutiveFailures := 0);
        change := BecameHealthy;
      }
    }
  }

  // ---- Statistics over a whole run ----

  datatype Sample = Sample(failed: bool, us: nat)

  function Collected(samples: seq<Sample>): Stats {
    if samples == [] then Stats(0, 0, 0)
    else
      var n := |samples| - 1;
      Counted(Collected(samples[..n]), samples[n].failed, samples[n].us)
  }

  function FailedSamples(samples: seq<Sample>): nat {
    if samples == [] then 0
    else FailedSamples(samples[..|samples| - 1]) + if samples[|samples| - 1].failed then 1 else 0
  }

  lemma AverageBetween(before: nat, us: nat, lo: nat, hi: nat)
    requires lo <= us <= hi && (before == 0 || lo <= before <= hi) && hi * 10 < U64
    ensures lo <= Average(before, us) <= hi
  {
    NoWrap(us);
    NoWrap(before * 9);
    NoWrap(before * 9 + us);
  }

  /** Each response moves the average a tenth of the way, rounded down; the first one sets it. */
  lemma AverageMoves(before: nat, us: nat)
    requires before * 9 + us < U64
    ensures before == 0 ==> Average(before, us) == us
    ensures before > 0 ==> 0 <= 9 * before + us - 10 * Average(before, us) < 10
  {
    NoWrap(us);
    NoWrap(before * 9);
    NoWrap(before * 9 + us);
  }

  /** After any run of responses the counters show how many there were and how many failed, in 64 bits,
      and the average lies between the fastest and the slowest as long as ten times the slowest fits. */
  lemma {:induction false} StatsAreOfHistory(samples: seq<Sample>, lo: nat, hi: nat)
    requires forall i :: 0 <= i < |samples| ==> lo <= samples[i].us <= hi
    ensures var s := Collected(samples);
            && s.total == Wrap(|samples|) && s.failures == Wrap(FailedSamples(samples))
            && (samples != [] && hi * 10 < U64 ==> lo <= s.averageUs <= hi)
  {
    if samples == [] {
    } else {
      var n := |samples| - 1;
      StatsAreOfHistory(samples[..n], lo, hi);
      WrapTwice(n, 1);
      WrapTwice(FailedSamples(samples[..n]), 1);
      if hi * 10 < U64 {
        AverageBetween(Collected(samples[..n]).averageUs, samples[n].us, lo, hi);
      }
    }
  }

  // ---- One backend over a whole run ----

  /** The backend after a run of outcomes, with the changes reported on the way. */
  function Watch(cfg: Config, run: seq<Outcome>): (Backend, seq<HealthChange>) {
    if run == [] then (NewBackend(), [])
    else
      var (b, changes) := Watch(cfg, run[..|run| - 1]);
      var last := run[|run| - 1];
      var (b', change) := Recorded(cfg, b, last.failed, last.at);
      (b', if change == NoChange then changes else changes + [change])
  }

  ghost predicate Alternating(changes: seq<HealthChange>) {
    forall i :: 0 <= i < |changes| ==> changes[i] == if i % 2 == 0 then BecameUnhealthy else BecameHealthy
  }

  /** The reported changes take turns, beginning with a failure, and the verdict is the last one. */
  lemma {:induction false} ChangesAlternate(cfg: Config, run: seq<Outcome>)
    ensures var (b, changes) := Watch(cfg, run);
            Alternating(changes) && (b.healthy <==> |changes| % 2 == 0)
  {
    if run == [] {
    } else {
      ChangesAlternate(cfg, run[..|run| - 1]);
      var (b, changes) := Watch(cfg, run[..|run| - 1]);
      var last := run[|run| - 1];
      ChangeIsFlip(cfg, b, last.failed, last.at);
      var (b', change) := Recorded(cfg, b, last.failed, last.at);
      OneMoreChange(changes, change, b.healthy, b'.healthy);
    }
  }

  lemma OneMoreChange(changes: seq<HealthChange>, change: HealthChange, before: bool, after: bool)
    requires Alternating(changes) && (before <==> |changes| % 2 == 0)
    requires change == BecameUnhealthy <==> before && !after
    requires change == BecameHealthy <==> !before && after
    ensures var r := if change == NoChange then changes else changes + [change];
            Alternating(r) && (after <==> |r| % 2 == 0)
  {
  }

  lemma {:induction false} WatchKeepsPruned(cfg: Config, run: seq<Outcome>)
    ensures Watch(cfg, run).0.entries == Pruned(run, cfg.window)
  {
    if run == [] {
    } else {
      var n := |run| - 1;
      WatchKeepsPruned(cfg, run[..n]);
      RecordedEntries(cfg, Watch(cfg, run[..n]).0, run[n]);
    }
  }

  lemma RecordedEntries(cfg: Config, b: Backend, o: Outcome)
    ensures Recorded(cfg, b, o.failed, o.at).0.entries == Recent(b.entries, cfg.window, o.at) + [o]
  {
    assert Outcome(o.at, o.failed) == o;
  }

  lemma FailuresAppend(es: seq<Outcome>, e: Outcome)
    ensures Failures(es + [e]) == Failures(es) + if e.failed then 1 else 0
  {
    assert (es + [e])[..|es|] == es;
  }

  /** How many failures end the run. */
  function Streak(run: seq<Outcome>): nat {
    if run == [] || !run[|run| - 1].failed then 0 else Streak(run[..|run| - 1]) + 1
  }

  lemma {:induction false} StreakIsCounted(cfg: Config, run: seq<Outcome>)
    requires cfg.successThreshold > 0
    ensures Watch(cfg, run).0.consecutiveFailures == Streak(run)
  {
    if run == [] {
    } else {
      StreakIsCounted(cfg, run[..|run| - 1]);
    }
  }

  function Failing(n: nat): seq<Outcome> {
    seq(n, _ => Outcome(0, true))
  }

  lemma FailOnce(cfg: Config, n: nat)
    ensures Watch(cfg, Failing(n + 1)).0 == Recorded(cfg, Watch(cfg, Failing(n)).0, true, 0).0
    ensures Streak(Failing(n + 1)) > 0
  {
    assert Failing(n + 1)[..n] == Failing(n);
  }

  lemma FailsOrCounts(cfg: Config, b: Backend)
    requires b.healthy
    ensures var r := Recorded(cfg, b, true, 0).0; !r.healthy || r.consecutiveFailures == b.consecutiveFailures + 1
  {
  }

  lemma FailFurther(cfg: Config, n: nat)
    requires Watch(cfg, Failing(n)).0.healthy && Watch(cfg, Failing(n)).0.consecutiveFailures == n
    ensures var b := Watch(cfg, Failing(n + 1)).0; !b.healthy || b.consecutiveFailures == n + 1
  {
    FailOnce(cfg, n);
    FailsOrCounts(cfg, Watch(cfg, Failing(n)).0);
  }

  /** Failures alone take a backend out. */
  lemma {:induction false} FailuresTrip(cfg: Config, n: nat) returns (m: nat)
    ensures !Watch(cfg, Failing(m)).0.healthy || (m == n && Watch(cfg, Failing(m)).0.consecutiveFailures == n)
  {
    if n == 0 {
      m := 0;
    } else {
      m := FailuresTrip(cfg, n - 1);
      if Watch(cfg, Failing(m)).0.healthy {
        FailFurther(cfg, n - 1);
        m := n;
      }
    }
  }

  /** The counter shows the failures that end the run, in every run, exactly when recovery takes a
      success; with a threshold of zero a failure can bring a backend back and clear its counter. */
  lemma StreakIsCountedExactly(cfg: Config)
    ensures (forall run :: Watch(cfg, run).0.consecutiveFailures == Streak(run)) <==> cfg.successThreshold > 0
  {
    if cfg.successThreshold > 0 {
      forall run
        ensures Watch(cfg, run).0.consecutiveFailures == Streak(run)
      {
        StreakIsCounted(cfg, run);
      }
    } else {
      var m := FailuresTrip(cfg, cfg.failureThreshold);
      FailOnce(cfg, m);
      FailOnce(cfg, m + 1);
      assert Watch(cfg, Failing(m + 1)).0.consecutiveFailures != Streak(Failing(m + 1))
          || Watch(cfg, Failing(m + 2)).0.consecutiveFailures != Streak(Failing(m + 2));
    }
  }

  /** How many failures, or successes, end the first `n` outcomes, counting from `from` on. */
  function Ending(run: seq<Outcome>, n: nat, from: nat, failed: bool): nat
    requires n <= |run|
  {
    if n <= from || run[n - 1].failed != failed then 0 else Ending(run, n - 1, from, failed) + 1
  }

  /** The backend before the run and after each of its outcomes. */
  function States(cfg: Config, run: seq<Outcome>): (states: seq<Backend>)
    ensures |states| == |run| + 1
  {
    if run == [] then [NewBackend()]
    else
      var n := |run| - 1;
      var before := States(cfg, run[..n]);
      before + [Recorded(cfg, before[n], run[n].failed, run[n].at).0]
  }

  /** How many of the first `n` outcomes it takes to the last one that turned the verdict to `healthy`. */
  function TurnedAt(states: seq<Backend>, n: nat, healthy: bool): (at: nat)
    requires n < |states|
    ensures at <= n
  {
    if n == 0 then 0
    else if states[n].healthy == healthy && states[n - 1].healthy != healthy then n
    else TurnedAt(states, n - 1, healthy)
  }

  /** `after` counts one outcome more than `b`. */
  ghost predicate CountedOn(b: Backend, o: Outcome, after: Backend) {
    && after.consecutiveFailures == (if (!b.healthy && after.healthy) || !o.failed then 0 else b.consecutiveFailures + 1)
    && after.consecutiveSuccesses == (if (b.healthy && !after.healthy) || o.failed then 0 else b.consecutiveSuccesses + 1)
    && after.unhealthySince == (if b.healthy == after.healthy then b.unhealthySince
                                else if after.healthy then None else Some(o.at))
  }

  lemma RecordCountsOn(cfg: Config, b: Backend, o: Outcome)
    ensures CountedOn(b, o, Recorded(cfg, b, o.failed, o.at).0)
  {
  }

  ghost predicate Trace(run: seq<Outcome>, states: seq<Backend>) {
    && |states| == |run| + 1 && states[0] == NewBackend()
    && forall i :: 0 <= i < |run| ==> CountedOn(states[i], run[i], states[i + 1])
  }

  /** Every state is the record of the one before it. */
  ghost predicate Recording(cfg: Config, run: seq<Outcome>, states: seq<Backend>) {
    && |states| == |run| + 1 && states[0] == NewBackend()
    && forall i :: 0 <= i < |run| ==> IsNext(cfg, states[i], run[i], states[i + 1])
  }

  predicate IsNext(cfg: Config, b: Backend, o: Outcome, after: Backend) {
    after == Recorded(cfg, b, o.failed, o.at).0
  }

  lemma RecordingOneMore(cfg: Config, run: seq<Outcome>, states: seq<Backend>, o: Outcome, b: Backend)
    requires Recording(cfg, run, states) && IsNext(cfg, states[|run|], o, b)
    ensures Recording(cfg, run + [o], states + [b])
  {
    var longer, more := run + [o], states + [b];
    forall i | 0 <= i < |longer|
      ensures IsNext(cfg, more[i], longer[i], more[i + 1])
    {
      if i < |run| {
        assert more[i] == states[i] && more[i + 1] == states[i + 1] && longer[i] == run[i];
      }
    }
  }

  lemma StatesOneMore(cfg: Config, run: seq<Outcome>, states: seq<Backend>, before: seq<Backend>)
    requires run != [] && states == States(cfg, run) && before == States(cfg, run[..|run| - 1])
    ensures states == before + [states[|run|]] && IsNext(cfg, before[|run| - 1], run[|run| - 1], states[|run|])
  {
  }

  lemma {:induction false} StatesAreRecorded(cfg: Config, run: seq<Outcome>, states: seq<Backend>)
    requires states == States(cfg, run)
    ensures Recording(cfg, run, states)
  {
    if run == [] {
    } else {
      var n := |run| - 1;
      var before := States(cfg, run[..n]);
      StatesAreRecorded(cfg, run[..n], before);
      StatesOneMore(cfg, run, states, before);
      RecordingOneMore(cfg, run[..n], before, run[n], states[n + 1]);
      assert run == run[..n] + [run[n]];
    }
  }

  lemma {:induction false} StatesAreWatched(cfg: Config, run: seq<Outcome>)
    ensures States(cfg, run)[|run|] == Watch(cfg, run).0
  {
    if run == [] {
    } else {
      StatesAreWatched(cfg, run[..|run| - 1]);
    }
  }

  lemma {:induction false} StatesOfPrefix(cfg: Config, run: seq<Outcome>, n: nat)
    requires n <= |run|
    ensures States(cfg, run)[n] == States(cfg, run[..n])[n]
  {
    if n == |run| {
      assert run[..n] == run;
    } else {
      var init := run[..|run| - 1];
      StatesOfPrefix(cfg, init, n);
      assert init[..n] == run[..n];
    }
  }

  lemma RecordingIsTrace(cfg: Config, run: seq<Outcome>, states: seq<Backend>)
    requires Recording(cfg, run, states)
    ensures Trace(run, states)
  {
    forall i | 0 <= i < |run|
      ensures CountedOn(states[i], run[i], states[i + 1])
    {
      assert IsNext(cfg, states[i], run[i], states[i + 1]);
      RecordCountsOn(cfg, states[i], run[i]);
    }
  }

  /** After `n` outcomes the record holds the failures that end them since the backend last came back,
      the successes that end them since it was last taken out, and when that was. */
  ghost predicate Tells(run: seq<Outcome>, states: seq<Backend>, n: nat)
    requires |states| == |run| + 1 && n <= |run|
  {
    var b, out := states[n], TurnedAt(states, n, false);
    && b.consecutiveFailures == Ending(run, n, TurnedAt(states, n, true), true)
    && b.consecutiveSuccesses == Ending(run, n, out, false)
    && if b.healthy then b.unhealthySince == None else out > 0 && b.unhealthySince == Some(run[out - 1].at)
  }

  lemma {:induction false} TraceTells(run: seq<Outcome>, states: seq<Backend>, n: nat)
    requires Trace(run, states) && n <= |run|
    ensures Tells(run, states, n)
  {
    if n == 0 {
    } else {
      TraceTells(run, states, n - 1);
      assert CountedOn(states[n - 1], run[n - 1], states[n]);
    }
  }

  /** In every run and for every configuration, the record is of the history. */
  lemma RecordIsOfHistory(cfg: Config, run: seq<Outcome>, n: nat)
    requires n <= |run|
    ensures Tells(run, States(cfg, run), n) && States(cfg, run)[n] == Watch(cfg, run[..n]).0
  {
    StatesAreRecorded(cfg, run, States(cfg, run));
    RecordingIsTrace(cfg, run, States(cfg, run));
    TraceTells(run, States(cfg, run), n);
    StatesOfPrefix(cfg, run, n);
    StatesAreWatched(cfg, run[..n]);
  }

  lemma TripsOnCounts(cfg: Config, b: Backend, o: Outcome, recent: seq<Outcome>)
    requires b.healthy && recent == Recent(b.entries, cfg.window, o.at)
    ensures !Recorded(cfg, b, o.failed, o.at).0.healthy <==>
              || (if o.failed then b.consecutiveFailures + 1 else 0) >= cfg.failureThreshold
              || Failures(recent) + (if o.failed then 1 else 0) >= cfg.failureThreshold
  {
    FailuresAppend(recent, o);
    assert [o] == [Outcome(o.at, o.failed)];
  }

  lemma RecoversOnCounts(cfg: Config, b: Backend, o: Outcome)
    requires !b.healthy
    ensures Recorded(cfg, b, o.failed, o.at).0.healthy <==>
              (if o.failed then 0 else b.consecutiveSuccesses + 1) >= cfg.successThreshold
  {
  }

  /** A healthy backend is taken out by its next response exactly when the failures that end the history
      since it last came back, this one included, or the failures of the full history inside the
      window together with this one, reach the threshold. */
  lemma TripsOnHistory(cfg: Config, run: seq<Outcome>, n: nat)
    requires n < |run| && Ordered(run[..n], run[n].at) && States(cfg, run)[n].healthy
    ensures !States(cfg, run)[n + 1].healthy <==>
              || Ending(run, n + 1, TurnedAt(States(cfg, run), n, true), true) >= cfg.failureThreshold
              || Failures(Recent(run[..n], cfg.window, run[n].at)) + (if run[n].failed then 1 else 0) >= cfg.failureThreshold
    ensures cfg.successThreshold > 0 ==> States(cfg, run)[n].consecutiveFailures == Streak(run[..n])
  {
    var states := States(cfg, run);
    RecordIsOfHistory(cfg, run, n);
    StatesAreRecorded(cfg, run, States(cfg, run));
    assert IsNext(cfg, states[n], run[n], states[n + 1]);
    WatchKeepsPruned(cfg, run[..n]);
    WindowIsHistory(run[..n], cfg.window, run[n].at);
    TripsOnCounts(cfg, states[n], run[n], Recent(run[..n], cfg.window, run[n].at));
    if cfg.successThreshold > 0 {
      StreakIsCounted(cfg, run[..n]);
    }
  }

  /** A backend that is out is brought back by its next response exactly when the successes that end the
      history since it was taken out, this one included, reach the threshold; with a threshold of zero
      any response brings it back, even a failure. */
  lemma RecoversOnHistory(cfg: Config, run: seq<Outcome>, n: nat)
    requires n < |run| && !States(cfg, run)[n].healthy
    ensures States(cfg, run)[n + 1].healthy <==>
              Ending(run, n + 1, TurnedAt(States(cfg, run), n, false), false) >= cfg.successThreshold
    ensures run[n].failed ==> (States(cfg, run)[n + 1].healthy <==> cfg.successThreshold == 0)
  {
    RecordIsOfHistory(cfg, run, n);
    StatesAreRecorded(cfg, run, States(cfg, run));
    assert IsNext(cfg, States(cfg, run)[n], run[n], States(cfg, run)[n + 1]);
    RecoversOnCounts(cfg, States(cfg, run)[n], run[n]);
  }

  /** A backend that is out may be tried again exactly when the recovery interval has passed since the
      outcome that took it out. */
  lemma TriedAgainExactly(cfg: Config, run: seq<Outcome>, states: seq<Backend>, n: nat, out: nat, now: nat)
    requires states == States(cfg, run) && n <= |run| && !states[n].healthy && out == TurnedAt(states, n, false)
    ensures out > 0 && (MayTry(cfg, states[n], now) <==> run[out - 1].at + cfg.recovery <= now)
  {
    RecordIsOfHistory(cfg, run, n);
  }

  // ---- Verdicts and balancer flags ----

  /** The URLs of every service's servers, in order. */
  type Services = seq<seq<string>>

  datatype Proxy = Proxy(backends: Verdicts, flags: seq<seq<bool>>)

  /** A response received through one service from one of its servers. */
  datatype Response = Response(service: nat, url: string, status: nat, elapsedMs: nat, now: nat)

  ghost predicate Shaped(services: Services, p: Proxy) {
    |p.flags| == |services| && forall s :: 0 <= s < |services| ==> |p.flags[s]| == |services[s]|
  }

  function Fresh(services: Services): Proxy {
    Proxy(map[], seq(|services|, s requires 0 <= s < |services| => seq(|services[s]|, _ => true)))
  }

  /** Carry a change over to the flag of the first server with that URL in the service. */
  function ApplyChange(services: Services, flags: seq<seq<bool>>, service: nat, url: string, change: HealthChange): seq<seq<bool>>
    requires |flags| == |services| && forall s :: 0 <= s < |services| ==> |flags[s]| == |services[s]|
  {
    if change == NoChange || service >= |services| then flags
    else
      var i := IndexOf(services[service], url);
      if i == |services[service]| then flags
      else flags[service := flags[service][i := change == BecameHealthy]]
  }

  function Handle(cfg: Config, services: Services, p: Proxy, r: Response): Proxy
    requires Shaped(services, p)
  {
    var (b, change) := Recorded(cfg, StateOf(p.backends, r.url), IsFailure(cfg, r.status, r.elapsedMs), r.now);
    Proxy(p.backends[r.url := b], ApplyChange(services, p.flags, r.service, r.url, change))
  }

  function HandleAll(cfg: Config, services: Services, rs: seq<Response>): (p: Proxy)
    ensures Shaped(services, p)
  {
    if rs == [] then Fresh(services)
    else Handle(cfg, services, HandleAll(cfg, services, rs[..|rs| - 1]), rs[|rs| - 1])
  }

  /** Responses come from servers of the service that handled them. */
  ghost predicate Genuine(services: Services, rs: seq<Response>) {
    forall k :: 0 <= k < |rs| ==> rs[k].service < |services| && rs[k].url in services[rs[k].service]
  }

  /** Every balancer flag shows the checker's verdict on that server. */
  ghost predicate InStep(services: Services, p: Proxy)
    requires Shaped(services, p)
  {
    forall s, i :: 0 <= s < |services| && 0 <= i < |services[s]| ==>
      p.flags[s][i] == IsHealthy(p.backends, services[s][i])
  }

  /** No URL is listed twice, in one service or in two. */
  ghost predicate Unique(services: Services) {
    forall s, i, t, j :: 0 <= s < |services| && 0 <= i < |services[s]| && 0 <= t < |services| && 0 <= j < |services[t]| ==>
      services[s][i] == services[t][j] ==> s == t && i == j
  }

  /** Some response can take a backend out at all. */
  predicate CanTrip(cfg: Config) {
    cfg.failureThreshold == 0 || cfg.failureCodes != {} || cfg.slowAfterMs.Some?
  }

  lemma HandleKeepsStep(cfg: Config, services: Services, p: Proxy, r: Response)
    requires Unique(services) && Shaped(services, p) && InStep(services, p)
    requires r.service < |services| && r.url in services[r.service]
    ensures InStep(services, Handle(cfg, services, p, r))
  {
    var q := Handle(cfg, services, p, r);
    ChangeIsFlip(cfg, StateOf(p.backends, r.url), IsFailure(cfg, r.status, r.elapsedMs), r.now);
    var k := IndexOf(services[r.service], r.url);
    assert services[r.service][k] == r.url;
    forall s, i | 0 <= s < |services| && 0 <= i < |services[s]|
      ensures q.flags[s][i] == IsHealthy(q.backends, services[s][i])
    {
      if services[s][i] == r.url {
        assert s == r.service && i == k;
      } else {
        assert IsHealthy(q.backends, services[s][i]) == IsHealthy(p.backends, services[s][i]);
      }
    }
  }

  lemma {:induction false} UniqueKeepsStep(cfg: Config, services: Services, rs: seq<Response>)
    requires Unique(services) && Genuine(services, rs)
    ensures InStep(services, HandleAll(cfg, services, rs))
  {
    if rs == [] {
    } else {
      UniqueKeepsStep(cfg, services, rs[..|rs| - 1]);
      HandleKeepsStep(cfg, services, HandleAll(cfg, services, rs[..|rs| - 1]), rs[|rs| - 1]);
    }
  }

  /** Nothing ever failed: no failure on record and nobody taken out. */
  ghost predicate Spotless(b: Backend) {
    b.healthy && b.consecutiveFailures == 0 && Failures(b.entries) == 0
  }

  lemma {:induction false} RecentNoFailures(es: seq<Outcome>, window: nat, now: nat)
    requires Failures(es) == 0
    ensures Failures(Recent(es, window, now)) == 0
  {
    if es == [] {
    } else {
      RecentNoFailures(es[..|es| - 1], window, now);
      FailuresAppend(Recent(es[..|es| - 1], window, now), es[|es| - 1]);
      assert Recent(es[..|es| - 1], window, now) + [] == Recent(es[..|es| - 1], window, now);
    }
  }

  lemma StaysSpotless(cfg: Config, b: Backend, now: nat)
    requires !CanTrip(cfg) && Spotless(b)
    ensures var (b', change) := Recorded(cfg, b, false, now); Spotless(b') && change == NoChange
  {
    RecentNoFailures(b.entries, cfg.window, now);
    FailuresAppend(Recent(b.entries, cfg.window, now), Outcome(now, false));
  }

  lemma QuietStep(cfg: Config, services: Services, p: Proxy, r: Response, url: string)
    requires !CanTrip(cfg) && Shaped(services, p)
    requires Spotless(StateOf(p.backends, url)) && Spotless(StateOf(p.backends, r.url))
    ensures var q := Handle(cfg, services, p, r); q.flags == p.flags && Spotless(StateOf(q.backends, url))
  {
    StaysSpotless(cfg, StateOf(p.backends, r.url), r.now);
  }

  lemma {:induction false} NeverTrips(cfg: Config, services: Services, rs: seq<Response>, url: string)
    requires !CanTrip(cfg)
    ensures HandleAll(cfg, services, rs).flags == Fresh(services).flags
    ensures Spotless(StateOf(HandleAll(cfg, services, rs).backends, url))
  {
    if rs == [] {
    } else {
      var init, r := rs[..|rs| - 1], rs[|rs| - 1];
      NeverTrips(cfg, services, init, url);
      NeverTrips(cfg, services, init, r.url);
      QuietStep(cfg, services, HandleAll(cfg, services, init), r, url);
    }
  }

  // ---- A URL listed twice falls out of step ----

  lemma SomeFailure(cfg: Config) returns (status: nat, elapsedMs: nat)
    requires CanTrip(cfg)
    ensures cfg.failureThreshold == 0 || IsFailure(cfg, status, elapsedMs)
  {
    status, elapsedMs := 0, if cfg.slowAfterMs.Some? then cfg.slowAfterMs.value + 1 else 0;
    if cfg.failureCodes != {} {
      status :| status in cfg.failureCodes;
    }
  }

  lemma HandleAppend(cfg: Config, services: Services, rs: seq<Response>, r: Response)
    ensures HandleAll(cfg, services, rs + [r]) == Handle(cfg, services, HandleAll(cfg, services, rs), r)
  {
    assert (rs + [r])[..|rs|] == rs;
  }

  lemma FailureCounts(cfg: Config, services: Services, p: Proxy, r: Response)
    requires Shaped(services, p)
    requires cfg.failureThreshold == 0 || IsFailure(cfg, r.status, r.elapsedMs)
    requires StateOf(p.backends, r.url).healthy
    ensures var b, q := StateOf(p.backends, r.url), Handle(cfg, services, p, r);
            if IsHealthy(q.backends, r.url) then
              && q.flags == p.flags && b.consecutiveFailures + 1 < cfg.failureThreshold
              && StateOf(q.backends, r.url).consecutiveFailures == b.consecutiveFailures + 1
            else q.flags == ApplyChange(services, p.flags, r.service, r.url, BecameUnhealthy)
  {
  }

  lemma GenuineAppend(services: Services, rs: seq<Response>, r: Response)
    requires Genuine(services, rs + [r])
    ensures Genuine(services, rs + [r] + [r])
  {
    assert (rs + [r])[|rs|] == r;
  }

  /** Enough failures through one service take the backend out and lower exactly one flag. */
  lemma {:induction false} Trip(cfg: Config, services: Services, rs: seq<Response>, r: Response, left: nat) returns (more: seq<Response>)
    requires Genuine(services, rs + [r])
    requires cfg.failureThreshold == 0 || IsFailure(cfg, r.status, r.elapsedMs)
    requires HandleAll(cfg, services, rs).flags == Fresh(services).flags
    requires var b := StateOf(HandleAll(cfg, services, rs).backends, r.url);
             b.healthy && b.consecutiveFailures + left >= cfg.failureThreshold
    ensures Genuine(services, more)
    ensures var p := HandleAll(cfg, services, more);
            && !IsHealthy(p.backends, r.url)
            && p.flags == ApplyChange(services, Fresh(services).flags, r.service, r.url, BecameUnhealthy)
    decreases left
  {
    more := rs + [r];
    GenuineAppend(services, rs, r);
    HandleAppend(cfg, services, rs, r);
    FailureCounts(cfg, services, HandleAll(cfg, services, rs), r);
    if IsHealthy(HandleAll(cfg, services, more).backends, r.url) {
      more := Trip(cfg, services, more, r, left - 1);
    }
  }

  lemma OtherFlagIsUp(services: Services, p: Proxy, s: nat, i: nat, t: nat, j: nat)
    requires s < |services| && i < |services[s]| && t < |services| && j < |services[t]|
    requires services[s][i] == services[t][j] && !(s == t && i == j)
    requires Shaped(services, p) && !IsHealthy(p.backends, services[s][i])
    requires p.flags == ApplyChange(services, Fresh(services).flags, s, services[s][i], BecameUnhealthy)
    ensures !InStep(services, p)
  {
    var k := IndexOf(services[s], services[s][i]);
    if s == t && j == k {
      assert p.flags[s][i];
    } else {
      assert p.flags[t][j];
    }
  }

  lemma DuplicateFallsOut(cfg: Config, services: Services) returns (rs: seq<Response>)
    requires CanTrip(cfg) && !Unique(services)
    ensures Genuine(services, rs) && !InStep(services, HandleAll(cfg, services, rs))
  {
    var s, i, t, j :| 0 <= s < |services| && 0 <= i < |services[s]| && 0 <= t < |services| && 0 <= j < |services[t]|
                      && services[s][i] == services[t][j] && !(s == t && i == j);
    var status, elapsedMs := SomeFailure(cfg);
    var r := Response(s, services[s][i], status, elapsedMs, 0);
    rs := Trip(cfg, services, [], r, cfg.failureThreshold);
    OtherFlagIsUp(services, HandleAll(cfg, services, rs), s, i, t, j);
  }

  /** In every run the flags show the verdicts, exactly when no URL is listed twice (or the
      configuration lets no response count as a failure). */
  lemma FlagsInStepExactlyWhenUnique(cfg: Config, services: Services)
    ensures (forall rs :: Genuine(services, rs) ==> InStep(services, HandleAll(cfg, services, rs)))
       <==> Unique(services) || !CanTrip(cfg)
  {
    if Unique(services) {
      forall rs | Genuine(services, rs) ensures InStep(services, HandleAll(cfg, services, rs)) {
        UniqueKeepsStep(cfg, services, rs);
      }
    } else if !CanTrip(cfg) {
      forall rs | Genuine(services, rs) ensures InStep(services, HandleAll(cfg, services, rs)) {
        var p := HandleAll(cfg, services, rs);
        forall s, i | 0 <= s < |services| && 0 <= i < |services[s]|
          ensures p.flags[s][i] == IsHealthy(p.backends, services[s][i])
        {
          NeverTrips(cfg, services, rs, services[s][i]);
        }
      }
    } else {
      var rs := DuplicateFallsOut(cfg, services);
      assert !(Genuine(services, rs) ==> InStep(services, HandleAll(cfg, services, rs)));
    }
  }
}
