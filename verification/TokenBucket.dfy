/** The token bucket rate limiter. Tokens are kept in thousandths and times in nanoseconds since the
    bucket's own epoch; 64-bit products and sums wrap. */
module TokenBuckets {
  import opened Words
  import opened Wrappers

  const TOKEN := 1000
  const ATTEMPTS := 8

  function Min(a: nat, b: nat): nat {
    if a < b then a else b
  }

  function Max(a: nat, b: nat): nat {
    if a < b then b else a
  }

  function SaturatingSub(a: nat, b: nat): nat {
    if a < b then 0 else a - b
  }

  datatype Bucket = Bucket(tokens: nat, lastUpdate: nat)

  datatype Limit = Limit(rate: nat, burst: nat) {
    /** The most the bucket holds once it has been drawn from. */
    function Cap(): nat {
      Wrap(burst * 1000)
    }
  }

  /** What the time since `last` adds. */
  function Refill(l: Limit, last: nat, now: nat): nat {
    Wrap(SaturatingSub(now, last) / 1_000_000 * l.rate) / 1000
  }

  function Topped(l: Limit, tokens: nat, last: nat, now: nat): nat {
    Min(Wrap(tokens + Refill(l, last, now)), l.Cap())
  }

  /** One attempt at `now` whose first `lost` compare-and-swaps fail for no reason. */
  function Attempt(l: Limit, b: Bucket, now: nat, lost: nat): (Bucket, bool) {
    var topped := Topped(l, b.tokens, b.lastUpdate, now);
    if topped < TOKEN || lost >= ATTEMPTS then (b, false)
    else (Bucket(topped - TOKEN, now), true)
  }

  class TokenBucket {
    var tokens: nat
    var lastUpdate: nat

    constructor (initialTokens: nat)
      ensures Contents() == Bucket(Wrap(initialTokens * 1000), 0)
    {
      tokens := Wrap(initialTokens * 1000);
      lastUpdate := 0;
    }

    function Contents(): Bucket
      reads this
    {
      Bucket(tokens, lastUpdate)
    }

    /** The bounded retry loop, with nobody else at the bucket. */
    method TryAcquire(l: Limit, now: nat, lost: nat) returns (allowed: bool)
      modifies this
      ensures (Contents(), allowed) == Attempt(l, old(Contents()), now, lost)
    {
      var maxTokens := Wrap(l.burst * 1000);
      for attempt := 0 to ATTEMPTS
        invariant Contents() == old(Contents()) && attempt <= lost
      {
        var last := lastUpdate;
        var elapsedMillis := SaturatingSub(now, last) / 1_000_000;
        var toAdd := Wrap(elapsedMillis * l.rate) / 1000;
        var current := tokens;
        var newTokens := Min(Wrap(current + toAdd), maxTokens);
        if newTokens < TOKEN {
          return false;
        }
        if attempt >= lost {
          tokens := newTokens - TOKEN;
          lastUpdate := now;
          return true;
        }
      }
      return false;
    }
  }

  // ---- How much a run of attempts can admit ----

  datatype Try = Try(now: nat, lost: nat)

  /** The bucket after a run, with the number of admitted requests. */
  function Run(l: Limit, b: Bucket, tries: seq<Try>): (Bucket, nat) {
    if tries == [] then (b, 0)
    else
      var (b', n) := Run(l, b, tries[..|tries| - 1]);
      var last := tries[|tries| - 1];
      var (b'', ok) := Attempt(l, b', last.now, last.lost);
      (b'', n + if ok then 1 else 0)
  }

  ghost predicate Ordered(tries: seq<Try>, start: nat) {
    && (forall i :: 0 <= i < |tries| ==> start <= tries[i].now)
    && forall i, j :: 0 <= i <= j < |tries| ==> tries[i].now <= tries[j].now
  }

  /** Rounded refills never exceed the exact rate: `rate` thousandths of a token per 10^9 ns. */
  lemma RefillAtMostRate(l: Limit, last: nat, now: nat, exact: nat)
    requires last <= now && exact == l.rate * (now - last)
    ensures Refill(l, last, now) * 1_000_000_000 <= exact
  {
    var ms := (now - last) / 1_000_000;
    var product := ms * l.rate;
    assert product * 1_000_000 <= exact by {
      MulAtMost(ms * 1_000_000, now - last, l.rate);
      assert ms * 1_000_000 * l.rate == product * 1_000_000;
    }
    WrapShrinks(product);
  }

  lemma MulAtMost(x: nat, y: nat, r: nat)
    requires x <= y
    ensures x * r <= r * y
  {
    assert (y - x) * r >= 0;
  }

  /** What has been admitted since `start`, and what is still in the bucket, was in the bucket right
      after the admission at `start` or was earned since. */
  ghost predicate WithinBudget(l: Limit, b: Bucket, admitted: nat, start: nat) {
    && start <= b.lastUpdate
    && (admitted * TOKEN + b.tokens + TOKEN) * 1_000_000_000 <= l.Cap() * 1_000_000_000 + l.rate * (b.lastUpdate - start)
  }

  lemma AttemptKeepsBudget(l: Limit, b: Bucket, admitted: nat, start: nat, now: nat, lost: nat)
    requires WithinBudget(l, b, admitted, start) && b.lastUpdate <= now
    ensures var (b', ok) := Attempt(l, b, now, lost);
            WithinBudget(l, b', admitted + if ok then 1 else 0, start)
  {
    var earned := l.rate * (now - b.lastUpdate);
    RefillAtMostRate(l, b.lastUpdate, now, earned);
    RateAddsUp(l.rate, start, b.lastUpdate, now);
    WrapShrinks(b.tokens + Refill(l, b.lastUpdate, now));
    var topped := Topped(l, b.tokens, b.lastUpdate, now);
    assert topped <= b.tokens + Refill(l, b.lastUpdate, now);
  }

  lemma RateAddsUp(rate: nat, a: nat, b: nat, c: nat)
    requires a <= b <= c
    ensures rate * (c - a) == rate * (b - a) + rate * (c - b)
  {
  }

  lemma {:induction false} RunKeepsBudget(l: Limit, b: Bucket, tries: seq<Try>)
    requires Ordered(tries, b.lastUpdate) && b.tokens + TOKEN <= l.Cap()
    ensures var (b', n) := Run(l, b, tries);
            && WithinBudget(l, b', n, b.lastUpdate)
            && (tries == [] ==> b'.lastUpdate == b.lastUpdate)
            && (tries != [] ==> b'.lastUpdate <= tries[|tries| - 1].now)
  {
    if tries == [] {
    } else {
      var k := |tries| - 1;
      RunKeepsBudget(l, b, tries[..k]);
      var (b', n) := Run(l, b, tries[..k]);
      AttemptKeepsBudget(l, b', n, b.lastUpdate, tries[k].now, tries[k].lost);
    }
  }

  /** Right after an admission the bucket is at least one token short of its cap. */
  lemma AdmissionLeavesRoom(l: Limit, b: Bucket, now: nat, lost: nat)
    requires Attempt(l, b, now, lost).1
    ensures var b' := Attempt(l, b, now, lost).0; b'.tokens + TOKEN <= l.Cap() && b'.lastUpdate == now
  {
  }

  /** The tight bound: after an admission at `b.lastUpdate`, the requests admitted in the `elapsed`
      nanoseconds that follow number at most the burst less one plus a millionth of rate times
      elapsed milliseconds. */
  lemma AdmittedTightly(l: Limit, b: Bucket, tries: seq<Try>, elapsed: nat)
    requires b.tokens + TOKEN <= l.Cap() && Ordered(tries, b.lastUpdate)
    requires tries != [] ==> tries[|tries| - 1].now <= b.lastUpdate + elapsed
    ensures Run(l, b, tries).1 * 1_000_000_000_000 + 1_000_000_000_000
         <= l.burst * 1_000_000_000_000 + l.rate * elapsed
  {
    RunKeepsBudget(l, b, tries);
    var (b', n) := Run(l, b, tries);
    WrapShrinks(l.burst * 1000);
    Settle(n, b'.tokens, l.Cap(), l.burst, l.rate, b'.lastUpdate - b.lastUpdate, elapsed);
  }

  lemma Settle(n: nat, tokens: nat, cap: nat, burst: nat, rate: nat, used: nat, elapsed: nat)
    requires (n * TOKEN + tokens + TOKEN) * 1_000_000_000 <= cap * 1_000_000_000 + rate * used
    requires cap <= burst * 1000 && used <= elapsed
    ensures n * 1_000_000_000_000 + 1_000_000_000_000 <= burst * 1_000_000_000_000 + rate * elapsed
  {
    MulAtMost(used, elapsed, rate);
  }

  /** The documented bound: at most the burst less one, plus the average rate times the elapsed
      seconds. It follows from the tight one with a factor of a thousand to spare. */
  lemma AdmittedAsDocumented(l: Limit, b: Bucket, tries: seq<Try>, elapsed: nat)
    requires b.tokens + TOKEN <= l.Cap() && Ordered(tries, b.lastUpdate)
    requires tries != [] ==> tries[|tries| - 1].now <= b.lastUpdate + elapsed
    ensures Run(l, b, tries).1 * 1_000_000_000 + 1_000_000_000 <= l.burst * 1_000_000_000 + l.rate * elapsed
  {
    AdmittedTightly(l, b, tries, elapsed);
    Relax(Run(l, b, tries).1, l.burst, l.rate * elapsed);
  }

  lemma Relax(n: nat, burst: nat, earned: nat)
    requires n * 1_000_000_000_000 + 1_000_000_000_000 <= burst * 1_000_000_000_000 + earned
    ensures n * 1_000_000_000 + 1_000_000_000 <= burst * 1_000_000_000 + earned
  {
  }

  /** The divisor of a thousand is applied twice: over whole seconds the bucket earns at most `rate`
      thousandths of a token per second, a thousandth of the configured average, and exactly that
      much unless the product wraps. */
  lemma EarnedPerSecond(l: Limit, last: nat, seconds: nat, earned: nat)
    requires earned == seconds * l.rate
    ensures Refill(l, last, last + seconds * 1_000_000_000) <= earned
    ensures Refill(l, last, last + seconds * 1_000_000_000) == earned <==> earned * 1000 < U64
  {
    var product := seconds * 1000 * l.rate;
    assert product == earned * 1000;
    assert seconds * 1_000_000_000 / 1_000_000 == seconds * 1000;
    WrappedThousandth(earned);
  }

  lemma WrappedThousandth(earned: nat)
    ensures Wrap(earned * 1000) / 1000 <= earned
    ensures Wrap(earned * 1000) / 1000 == earned <==> earned * 1000 < U64
  {
    if earned * 1000 < U64 {
      NoWrap(earned * 1000);
    }
  }

  // ---- What a call is owed ----

  /** `ms` is the number of whole milliseconds in `elapsed` nanoseconds. */
  predicate WholeMs(elapsed: nat, ms: nat) {
    ms * 1_000_000 <= elapsed < (ms + 1) * 1_000_000
  }

  /** No sum and no product of the attempt leaves 64 bits; `product` is the milliseconds since the last
      admission times the rate. */
  predicate NothingWraps(l: Limit, tokens: nat, product: nat) {
    l.burst * 1000 < U64 && tokens + product < U64
  }

  lemma RefillUnwrapped(l: Limit, last: nat, now: nat, ms: nat, product: nat)
    requires last <= now && WholeMs(now - last, ms) && product == ms * l.rate && product < U64
    ensures Refill(l, last, now) == product / 1000
  {
    assert (now - last) / 1_000_000 == ms;
    NoWrap(product);
  }

  lemma ToppedUnwrapped(l: Limit, tokens: nat, last: nat, now: nat, ms: nat, product: nat)
    requires last <= now && WholeMs(now - last, ms) && product == ms * l.rate && NothingWraps(l, tokens, product)
    ensures Topped(l, tokens, last, now) == Min(tokens + product / 1000, l.burst * 1000)
  {
    RefillUnwrapped(l, last, now, ms, product);
    NoWrap(tokens + product / 1000);
    NoWrap(l.burst * 1000);
  }

  /** While nothing wraps and no swap is lost for good, a call is admitted exactly when the burst allows
      for a token and a million microtokens are held or have been earned in whole milliseconds since the
      last admission. What an admission leaves, with the token it took, is what was held and earned,
      less fractions of a thousandth, or the burst if that is less. */
  lemma AdmitsExactly(l: Limit, b: Bucket, now: nat, lost: nat, ms: nat, product: nat)
    requires b.lastUpdate <= now && WholeMs(now - b.lastUpdate, ms) && product == ms * l.rate
    requires NothingWraps(l, b.tokens, product)
    ensures var (after, ok) := Attempt(l, b, now, lost);
            && (ok <==> lost < 8 && l.burst >= 1 && b.tokens * 1000 + product >= 1_000_000)
            && (!ok ==> after == b)
            && (ok ==>
                  && after.lastUpdate == now
                  && after.tokens + 1000 <= l.burst * 1000
                  && (after.tokens + 1000) * 1000 <= b.tokens * 1000 + product
                  && (after.tokens + 1000 < l.burst * 1000 ==> b.tokens * 1000 + product < (after.tokens + 1001) * 1000))
  {
    ToppedUnwrapped(l, b.tokens, b.lastUpdate, now, ms, product);
  }

  /** At one instant a bucket admits exactly as many calls as it holds whole tokens, up to the burst. */
  lemma {:induction false} BurstAdmittedExactly(l: Limit, b: Bucket, tries: seq<Try>)
    requires NothingWraps(l, b.tokens, 0)
    requires forall i :: 0 <= i < |tries| ==> tries[i] == Try(b.lastUpdate, 0)
    ensures var (after, n) := Run(l, b, tries);
            && n == Min(|tries|, Min(b.tokens / 1000, l.burst))
            && after.lastUpdate == b.lastUpdate
            && (if n == 0 then after.tokens == b.tokens
                else after.tokens == Min(b.tokens, l.burst * 1000) - n * 1000)
  {
    if tries == [] {
    } else {
      var k := |tries| - 1;
      BurstAdmittedExactly(l, b, tries[..k]);
      var (before, n) := Run(l, b, tries[..k]);
      assert tries[k] == Try(b.lastUpdate, 0);
      ToppedUnwrapped(l, before.tokens, b.lastUpdate, b.lastUpdate, 0, 0);
    }
  }

  // ---- One bucket per key ----

  /** A client's bucket and the time it was created, from which its own clock counts. */
  datatype Slot = Slot(epoch: nat, bucket: Bucket)

  type Slots = map<string, Slot>

  datatype Settings = Settings(average: nat, burst: nat) {
    function Limits(): Limit {
      Limit(average, Max(burst, 1))
    }

    /** The bucket of a key, made full on first use. */
    function Current(slots: Slots, key: string, now: nat): Slot {
      if key in slots then slots[key] else Slot(now, Bucket(Wrap(Max(burst, average) * 1000), 0))
    }
  }

  datatype Call = Call(key: string, now: nat, lost: nat)

  /** One call: the buckets after it, and whether it was admitted. */
  function Serve(cfg: Settings, slots: Slots, c: Call): (Slots, bool) {
    var slot := cfg.Current(slots, c.key, c.now);
    var (after, ok) := Attempt(cfg.Limits(), slot.bucket, SaturatingSub(c.now, slot.epoch), c.lost);
    (slots[c.key := Slot(slot.epoch, after)], ok)
  }

  class RateLimiter {
    const settings: Settings
    var buckets: Slots

    constructor (settings: Settings)
      ensures this.settings == settings && buckets == map[]
    {
      this.settings := settings;
      buckets := map[];
    }

    /** Each key draws on its own bucket; `EveryKeyObeysBound` says what that keeps a key to. */
    method IsAllowedByKey(key: string, now: nat, lost: nat) returns (allowed: bool)
      modifies this`buckets
      ensures (buckets, allowed) == Serve(settings, old(buckets), Call(key, now, lost))
      ensures forall k :: k != key ==> (k in buckets <==> k in old(buckets)) && (k in buckets ==> buckets[k] == old(buckets)[k])
    {
      if key !in buckets {
        buckets := buckets[key := settings.Current(buckets, key, now)];
      }
      var slot := buckets[key];
      var (after, ok) := Attempt(settings.Limits(), slot.bucket, SaturatingSub(now, slot.epoch), lost);
      buckets := buckets[key := slot.(bucket := after)];
      assert buckets == old(buckets)[key := Slot(slot.epoch, after)];
      allowed := ok;
    }
  }

  function After(cfg: Settings, slots: Slots, calls: seq<Call>): Slots {
    if calls == [] then slots
    else
      var n := |calls| - 1;
      Serve(cfg, After(cfg, slots, calls[..n]), calls[n]).0
  }

  /** How many of the calls for `key` are admitted. */
  function Admitted(cfg: Settings, slots: Slots, calls: seq<Call>, key: string): nat {
    if calls == [] then 0
    else
      var n := |calls| - 1;
      Admitted(cfg, slots, calls[..n], key)
      + if calls[n].key == key && Serve(cfg, After(cfg, slots, calls[..n]), calls[n]).1 then 1 else 0
  }

  /** The calls for `key`, on the clock of its bucket. */
  function TriesOf(calls: seq<Call>, key: string, epoch: nat): seq<Try> {
    if calls == [] then []
    else
      var n := |calls| - 1;
      var before := TriesOf(calls[..n], key, epoch);
      if calls[n].key == key then before + [Try(SaturatingSub(calls[n].now, epoch), calls[n].lost)] else before
  }

  lemma RunOneMore(l: Limit, b: Bucket, tries: seq<Try>, t: Try)
    ensures var (b', n) := Run(l, b, tries);
            var (b'', ok) := Attempt(l, b', t.now, t.lost);
            Run(l, b, tries + [t]) == (b'', n + if ok then 1 else 0)
  {
    assert (tries + [t])[..|tries|] == tries;
  }

  /** Whatever other keys do in between, a key gets what its own calls alone would get. */
  lemma {:induction false} KeysAreIndependent(cfg: Settings, slots: Slots, calls: seq<Call>, key: string)
    requires key in slots
    ensures var slot := slots[key];
            var (b, n) := Run(cfg.Limits(), slot.bucket, TriesOf(calls, key, slot.epoch));
            && key in After(cfg, slots, calls) && After(cfg, slots, calls)[key] == Slot(slot.epoch, b)
            && Admitted(cfg, slots, calls, key) == n
  {
    if calls == [] {
    } else {
      var n, slot := |calls| - 1, slots[key];
      KeysAreIndependent(cfg, slots, calls[..n], key);
      if calls[n].key == key {
        RunOneMore(cfg.Limits(), slot.bucket, TriesOf(calls[..n], key, slot.epoch),
                   Try(SaturatingSub(calls[n].now, slot.epoch), calls[n].lost));
      }
    }
  }

  ghost predicate InTime(calls: seq<Call>, from: nat, to: nat) {
    && (forall i :: 0 <= i < |calls| ==> from <= calls[i].now <= to)
    && forall i, j :: 0 <= i <= j < |calls| ==> calls[i].now <= calls[j].now
  }

  lemma {:induction false} TriesAreOrdered(calls: seq<Call>, key: string, epoch: nat, from: nat, to: nat)
    requires InTime(calls, from, to) && epoch <= from
    ensures Ordered(TriesOf(calls, key, epoch), from - epoch)
    ensures forall i :: 0 <= i < |TriesOf(calls, key, epoch)| ==> TriesOf(calls, key, epoch)[i].now <= to - epoch
  {
    if calls == [] {
    } else {
      var n := |calls| - 1;
      TriesAreOrdered(calls[..n], key, epoch, from, calls[n].now);
    }
  }

  /** Buckets are made no later than they are used. */
  lemma {:induction false} EpochsArePast(cfg: Settings, calls: seq<Call>, to: nat, key: string)
    requires InTime(calls, 0, to) && key in After(cfg, map[], calls)
    ensures After(cfg, map[], calls)[key].epoch <= to
  {
    if calls == [] {
    } else {
      var n := |calls| - 1;
      if key in After(cfg, map[], calls[..n]) {
        EpochsArePast(cfg, calls[..n], to, key);
      }
    }
  }

  /** Over any trace of calls with any keys: the requests a key has admitted in the `elapsed`
      nanoseconds after one of its admissions number at most the burst less one, plus the average per
      second. */
  lemma EveryKeyObeysBound(cfg: Settings, before: seq<Call>, c: Call, slots: Slots, calls: seq<Call>, elapsed: nat)
    requires InTime(before, 0, c.now) && InTime(calls, c.now, c.now + elapsed)
    requires Serve(cfg, After(cfg, map[], before), c) == (slots, true)
    ensures Admitted(cfg, slots, calls, c.key) * 1_000_000_000 + 1_000_000_000
         <= Max(cfg.burst, 1) * 1_000_000_000 + cfg.average * elapsed
  {
    var start, l := After(cfg, map[], before), cfg.Limits();
    if c.key in start {
      EpochsArePast(cfg, before, c.now, c.key);
    }
    var slot := cfg.Current(start, c.key, c.now);
    var tries := TriesOf(calls, c.key, slot.epoch);
    AdmissionLeavesRoom(l, slot.bucket, c.now - slot.epoch, c.lost);
    KeysAreIndependent(cfg, slots, calls, c.key);
    TriesAreOrdered(calls, c.key, slot.epoch, c.now, c.now + elapsed);
    AdmittedAsDocumented(l, slots[c.key].bucket, tries, elapsed);
  }

  // ---- Nobody waits for ever ----

  /** The `i`-th call is admitted. */
  predicate AdmittedAt(cfg: Settings, calls: seq<Call>, i: nat) {
    i < |calls| && Serve(cfg, After(cfg, map[], calls[..i]), calls[i]).1
  }

  function FullBucket(cfg: Settings): Bucket {
    Bucket(Wrap(Max(cfg.burst, cfg.average) * 1000), 0)
  }

  /** The `i`-th call is the admission the slot of `key` remembers. */
  predicate Remembers(cfg: Settings, calls: seq<Call>, key: string, slot: Slot, i: nat) {
    i < |calls| && calls[i].key == key && AdmittedAt(cfg, calls, i) && calls[i].now == slot.epoch + slot.bucket.lastUpdate
  }

  /** A bucket is as it was made, or remembers one of its admissions and holds less than its burst. */
  ghost predicate Truthful(cfg: Settings, calls: seq<Call>, key: string, slot: Slot) {
    || slot.bucket == FullBucket(cfg)
    || (&& slot.bucket.tokens <= Max(cfg.burst, 1) * 1000
        && exists i: nat :: Remembers(cfg, calls, key, slot, i))
  }

  lemma StillRemembers(cfg: Settings, calls: seq<Call>, c: Call, key: string, slot: Slot, i: nat)
    requires Remembers(cfg, calls, key, slot, i)
    ensures Remembers(cfg, calls + [c], key, slot, i)
  {
    assert (calls + [c])[..i] == calls[..i];
  }

  lemma StillTruthful(cfg: Settings, calls: seq<Call>, c: Call, key: string, slot: Slot)
    requires Truthful(cfg, calls, key, slot)
    ensures Truthful(cfg, calls + [c], key, slot)
  {
    if slot.bucket != FullBucket(cfg) {
      var i: nat :| Remembers(cfg, calls, key, slot, i);
      StillRemembers(cfg, calls, c, key, slot, i);
    }
  }

  lemma ServedTruthful(cfg: Settings, calls: seq<Call>, c: Call, slots: Slots, ok: bool)
    requires Serve(cfg, After(cfg, map[], calls), c) == (slots, ok)
    requires var slot := cfg.Current(After(cfg, map[], calls), c.key, c.now);
             slot.epoch <= c.now && Truthful(cfg, calls, c.key, slot)
    ensures c.key in slots && Truthful(cfg, calls + [c], c.key, slots[c.key])
  {
    var slot := cfg.Current(After(cfg, map[], calls), c.key, c.now);
    if ok {
      AdmissionLeavesRoom(cfg.Limits(), slot.bucket, c.now - slot.epoch, c.lost);
      WrapShrinks(Max(cfg.burst, 1) * 1000);
      assert (calls + [c])[..|calls|] == calls;
      assert Remembers(cfg, calls + [c], c.key, slots[c.key], |calls|);
    } else {
      StillTruthful(cfg, calls, c, c.key, slot);
    }
  }

  /** In every run, each bucket is truthful. */
  lemma {:induction false} AlwaysTruthful(cfg: Settings, calls: seq<Call>, to: nat, key: string)
    requires InTime(calls, 0, to) && key in After(cfg, map[], calls)
    ensures Truthful(cfg, calls, key, After(cfg, map[], calls)[key])
  {
    if calls == [] {
    } else {
      var n := |calls| - 1;
      var before, c := calls[..n], calls[n];
      var slots := After(cfg, map[], before);
      assert before + [c] == calls;
      if key in slots {
        AlwaysTruthful(cfg, before, c.now, key);
        EpochsArePast(cfg, before, c.now, key);
      }
      if c.key == key {
        var (next, ok) := Serve(cfg, slots, c);
        ServedTruthful(cfg, before, c, next, ok);
      } else {
        StillTruthful(cfg, before, c, key, slots[key]);
      }
    }
  }

  /** Up to `now` nothing wraps. */
  predicate NeverWraps(cfg: Settings, now: nat) {
    Max(Max(cfg.burst, cfg.average), 1) * 1000 + now * cfg.average < U64
  }

  lemma Earned(rate: nat, rest: nat, ms: nat, elapsed: nat, now: nat)
    requires WholeMs(elapsed, ms) && elapsed <= now
    ensures ms * rate <= now * rate
    ensures rest * 1_000_000 <= elapsed ==> rest * rate <= ms * rate
  {
    MulAtMost(ms, now, rate);
    if rest * 1_000_000 <= elapsed {
      MulAtMost(rest, ms, rate);
    }
  }

  /** `rest` milliseconds earn a token. */
  predicate EarnsToken(cfg: Settings, rest: nat) {
    cfg.average > 0 && rest * cfg.average >= 1_000_000
  }

  /** The bucket is as it was made, or nothing was taken from it after `until`. */
  predicate Rested(cfg: Settings, slot: Slot, until: int) {
    || slot.bucket == FullBucket(cfg)
    || (slot.bucket.tokens <= Max(cfg.burst, 1) * 1000 && slot.epoch + slot.bucket.lastUpdate <= until)
  }

  lemma RestedIsAdmitted(cfg: Settings, slot: Slot, now: nat, lost: nat, rest: nat)
    requires slot.epoch + slot.bucket.lastUpdate <= now && NeverWraps(cfg, now)
    requires EarnsToken(cfg, rest) && lost < 8 && Rested(cfg, slot, now - rest * 1_000_000)
    ensures Attempt(cfg.Limits(), slot.bucket, now - slot.epoch, lost).1
  {
    var elapsed := now - slot.epoch - slot.bucket.lastUpdate;
    var ms := elapsed / 1_000_000;
    Earned(cfg.average, rest, ms, elapsed, now);
    var most := Max(cfg.burst, cfg.average) * 1000;
    assert now * cfg.average >= 0;
    NoWrap(most);
    AdmitsExactly(cfg.Limits(), slot.bucket, now - slot.epoch, lost, ms, ms * cfg.average);
  }

  /** No call for `key` was admitted after `until`. */
  ghost predicate QuietSince(cfg: Settings, calls: seq<Call>, key: string, until: int) {
    forall i: nat :: i < |calls| && calls[i].key == key && AdmittedAt(cfg, calls, i) ==> calls[i].now <= until
  }

  lemma QuietIsRested(cfg: Settings, calls: seq<Call>, key: string, slot: Slot, until: int)
    requires Truthful(cfg, calls, key, slot) && QuietSince(cfg, calls, key, until)
    ensures Rested(cfg, slot, until)
  {
    if slot.bucket != FullBucket(cfg) {
      var i: nat :| Remembers(cfg, calls, key, slot, i);
      assert calls[i].now <= until;
    }
  }

  lemma SlotIsRested(cfg: Settings, calls: seq<Call>, key: string, now: nat, slot: Slot, until: int)
    requires InTime(calls, 0, now) && QuietSince(cfg, calls, key, until)
    requires slot == cfg.Current(After(cfg, map[], calls), key, now)
    ensures slot.epoch + slot.bucket.lastUpdate <= now && Rested(cfg, slot, until)
  {
    if key in After(cfg, map[], calls) {
      AlwaysTruthful(cfg, calls, now, key);
      EpochsArePast(cfg, calls, now, key);
      QuietIsRested(cfg, calls, key, slot, until);
      StampIsPast(cfg, calls, key, slot, now);
    }
  }

  lemma StampIsPast(cfg: Settings, calls: seq<Call>, key: string, slot: Slot, now: nat)
    requires InTime(calls, 0, now) && Truthful(cfg, calls, key, slot) && slot.epoch <= now
    ensures slot.epoch + slot.bucket.lastUpdate <= now
  {
    if slot.bucket != FullBucket(cfg) {
      var i: nat :| Remembers(cfg, calls, key, slot, i);
    }
  }

  lemma ServeAttempts(cfg: Settings, slots: Slots, c: Call, slot: Slot)
    requires slot == cfg.Current(slots, c.key, c.now) && slot.epoch <= c.now
    ensures Serve(cfg, slots, c).1 == Attempt(cfg.Limits(), slot.bucket, c.now - slot.epoch, c.lost).1
  {
  }

  /** Over any trace of calls with any keys: a key with no admission in the last `rest` milliseconds is
      admitted, where `rest` times the average makes a million. */
  lemma RestedKeyIsAdmitted(cfg: Settings, calls: seq<Call>, c: Call, rest: nat)
    requires InTime(calls, 0, c.now) && NeverWraps(cfg, c.now) && c.lost < 8 && EarnsToken(cfg, rest)
    requires QuietSince(cfg, calls, c.key, c.now - rest * 1_000_000)
    ensures Serve(cfg, After(cfg, map[], calls), c).1
  {
    var slot := cfg.Current(After(cfg, map[], calls), c.key, c.now);
    SlotIsRested(cfg, calls, c.key, c.now, slot, c.now - rest * 1_000_000);
    RestedIsAdmitted(cfg, slot, c.now, c.lost, rest);
    ServeAttempts(cfg, After(cfg, map[], calls), c, slot);
  }

  /** Where the product of rate and time wraps, a bucket may rest and still be refused; where the sum of
      tokens wraps, a full one is; and where the burst in thousandths wraps, every one is. */
  lemma WrappingRefuses(seconds: nat, rate: nat, b: Bucket, now: nat, lost: nat)
    ensures !Attempt(Limit(0x8000_0000_0000_0000, 1), Bucket(0, 0), seconds * 1_000_000_000, 0).1
    ensures !Attempt(Limit(1000, 1), Bucket(U64 - 1, 0), 1_000_000, 0).1
    ensures !Attempt(Limit(rate, 0x2000_0000_0000_0000), b, now, lost).1
  {
    var half := 0x8000_0000_0000_0000;
    assert seconds * 1_000_000_000 / 1_000_000 == seconds * 1000;
    assert seconds * 1000 * half == seconds * 500 * U64;
    WrapMultiple(seconds * 500);
    WrapMultiple(125);
  }

  lemma WrapMultiple(k: nat)
    ensures Wrap(k * U64) == 0
  {
  }
}

/** The same bucket under any number of concurrent callers: every load and every compare-and-swap is
    one step, and a schedule says who moves next. */
module InterleavedBucket {
  import opened TokenBuckets
  import opened Words

  /** Where a caller is inside the retry loop. */
  datatype Caller =
    | Idle
    | AtLast(now: nat, attempt: nat)
    | AtTokens(now: nat, attempt: nat, last: nat)
    | AtSwap(now: nat, attempt: nat, last: nat, current: nat)
    | AtStamp(now: nat, last: nat)

  /** `credited` adds up the refills behind the admissions. */
  datatype State = State(bucket: Bucket, callers: seq<Caller>, admitted: nat, credited: nat)

  /** Caller `c` moves; `now` is its clock if it starts a call, `weak` a swap failing spuriously. */
  datatype Turn = Turn(c: nat, now: nat, weak: bool)

  function At(s: State, c: nat, caller: Caller): State
    requires c < |s.callers|
  {
    s.(callers := s.callers[c := caller])
  }

  function Move(l: Limit, s: State, t: Turn): State {
    if t.c >= |s.callers| then s else
    match s.callers[t.c]
    case Idle => At(s, t.c, AtLast(t.now, 0))
    case AtLast(now, attempt) => At(s, t.c, AtTokens(now, attempt, s.bucket.lastUpdate))
    case AtTokens(now, attempt, last) => At(s, t.c, AtSwap(now, attempt, last, s.bucket.tokens))
    case AtSwap(now, attempt, last, current) =>
      var topped := Topped(l, current, last, now);
      if topped < TOKEN then At(s, t.c, Idle)
      else if s.bucket.tokens == current && !t.weak then
        At(s, t.c, AtStamp(now, last)).(bucket := s.bucket.(tokens := topped - TOKEN),
                                        admitted := s.admitted + 1,
                                        credited := s.credited + Refill(l, last, now))
      else At(s, t.c, if attempt + 1 < ATTEMPTS then AtLast(now, attempt + 1) else Idle)
    case AtStamp(now, last) =>
      At(s, t.c, Idle).(bucket := if s.bucket.lastUpdate == last then s.bucket.(lastUpdate := now) else s.bucket)
  }

  function Exec(l: Limit, s: State, turns: seq<Turn>): State {
    if turns == [] then s
    else Move(l, Exec(l, s, turns[..|turns| - 1]), turns[|turns| - 1])
  }

  /** Every step either leaves the tokens alone or admits one request and takes exactly one whole
      token out of the topped-up amount. */
  lemma MoveWithdrawsOne(l: Limit, s: State, t: Turn)
    ensures var r := Move(l, s, t);
            || (r.admitted == s.admitted && r.bucket.tokens == s.bucket.tokens)
            || (&& r.admitted == s.admitted + 1 && t.c < |s.callers| && s.callers[t.c].AtSwap?
                && r.bucket.tokens + TOKEN == Topped(l, s.bucket.tokens, s.callers[t.c].last, s.callers[t.c].now))
  {
  }

  /** The bucket never holds more than it started with or its cap, nothing is admitted that was not
      there at the start or credited since, and no caller tries more often than it may. */
  ghost predicate Sound(l: Limit, initial: nat, s: State) {
    && s.bucket.tokens <= Max(initial, l.Cap())
    && (s.admitted > 0 ==> s.bucket.tokens + TOKEN <= l.Cap())
    && s.bucket.tokens + s.admitted * TOKEN <= initial + s.credited
    && forall c :: 0 <= c < |s.callers| ==>
         (s.callers[c].AtLast? || s.callers[c].AtTokens? || s.callers[c].AtSwap? ==> s.callers[c].attempt < ATTEMPTS)
  }

  lemma MoveKeepsSound(l: Limit, initial: nat, s: State, t: Turn)
    requires Sound(l, initial, s)
    ensures Sound(l, initial, Move(l, s, t))
  {
    if t.c < |s.callers| && s.callers[t.c].AtSwap? {
      var k := s.callers[t.c];
      WrapShrinks(k.current + Refill(l, k.last, k.now));
    }
  }

  lemma {:induction false} EveryScheduleSound(l: Limit, initial: nat, s: State, turns: seq<Turn>)
    requires Sound(l, initial, s)
    ensures Sound(l, initial, Exec(l, s, turns))
  {
    if turns == [] {
    } else {
      EveryScheduleSound(l, initial, s, turns[..|turns| - 1]);
      MoveKeepsSound(l, initial, Exec(l, s, turns[..|turns| - 1]), turns[|turns| - 1]);
    }
  }

  ghost predicate Untouched(s: State) {
    s.admitted == 0 && s.credited == 0 && forall c :: 0 <= c < |s.callers| ==> s.callers[c].Idle?
  }

  /** From a bucket nobody has used yet, under every interleaving of any number of callers. */
  lemma SoundUnderInterleaving(l: Limit, s: State, turns: seq<Turn>)
    requires Untouched(s)
    ensures Sound(l, s.bucket.tokens, Exec(l, s, turns))
  {
    EveryScheduleSound(l, s.bucket.tokens, s, turns);
  }

  // ---- Every call ends ----

  /** How many more moves of its own a caller can need to end its call. */
  function MovesLeft(caller: Caller): nat {
    match caller
    case Idle => 0
    case AtLast(_, attempt) => if attempt < 8 then 3 * (8 - attempt) + 1 else 1
    case AtTokens(_, attempt, _) => if attempt < 8 then 3 * (8 - attempt) else 1
    case AtSwap(_, attempt, _, _) => if attempt < 8 then 3 * (8 - attempt) - 1 else 1
    case AtStamp(_, _) => 1
  }

  /** How many of the turns are moves of caller `c`. */
  function MovesOf(turns: seq<Turn>, c: nat): nat {
    if turns == [] then 0 else MovesOf(turns[..|turns| - 1], c) + if turns[|turns| - 1].c == c then 1 else 0
  }

  lemma MoveComesNearer(l: Limit, initial: nat, s: State, t: Turn, c: nat)
    requires Sound(l, initial, s) && c < |s.callers| && !s.callers[c].Idle?
    ensures var r := Move(l, s, t);
            && |r.callers| == |s.callers|
            && (t.c != c ==> r.callers[c] == s.callers[c])
            && (t.c == c ==> MovesLeft(r.callers[c]) < MovesLeft(s.callers[c]))
  {
  }

  /** After some prefix of the turns the caller is between calls. */
  ghost predicate Returns(l: Limit, s: State, turns: seq<Turn>, c: nat) {
    exists k :: 0 <= k <= |turns| && IdleAfter(l, s, turns[..k], c)
  }

  predicate IdleAfter(l: Limit, s: State, turns: seq<Turn>, c: nat) {
    var r := Exec(l, s, turns);
    c < |r.callers| && r.callers[c].Idle?
  }

  lemma {:induction false} ReturnsOrNearer(l: Limit, initial: nat, s: State, turns: seq<Turn>, c: nat)
    requires Sound(l, initial, s) && c < |s.callers|
    ensures || Returns(l, s, turns, c)
            || (var r := Exec(l, s, turns);
                && c < |r.callers| && !r.callers[c].Idle?
                && MovesLeft(r.callers[c]) + MovesOf(turns, c) <= MovesLeft(s.callers[c]))
  {
    if turns == [] {
      if s.callers[c].Idle? {
        assert IdleAfter(l, s, turns[..0], c);
      }
    } else {
      var n := |turns| - 1;
      ReturnsOrNearer(l, initial, s, turns[..n], c);
      if Returns(l, s, turns[..n], c) {
        var k :| 0 <= k <= n && IdleAfter(l, s, turns[..n][..k], c);
        assert turns[..n][..k] == turns[..k];
      } else {
        EveryScheduleSound(l, initial, s, turns[..n]);
        MoveComesNearer(l, initial, Exec(l, s, turns[..n]), turns[n], c);
        assert turns[..|turns|] == turns;
        assert Exec(l, s, turns).callers[c].Idle? ==> IdleAfter(l, s, turns[..|turns|], c);
      }
    }
  }

  /** No livelock: whatever the others do, a caller is done within 25 moves of its own. */
  lemma EveryCallEnds(l: Limit, initial: nat, s: State, turns: seq<Turn>, c: nat)
    requires Sound(l, initial, s) && c < |s.callers| && MovesOf(turns, c) >= 25
    ensures Returns(l, s, turns, c)
  {
    ReturnsOrNearer(l, initial, s, turns, c);
  }

  // ---- A caller on its own ----

  /** The first four moves of caller `c`: enough to be refused, or to have swapped. */
  function FourMoves(l: Limit, s: State, c: nat, now: nat): State {
    var t := Turn(c, now, false);
    Move(l, Move(l, Move(l, Move(l, s, t), t), t), t)
  }

  /** A caller nobody interrupts does exactly what the sequential attempt does. */
  lemma UninterruptedAttempt(l: Limit, s: State, c: nat, now: nat)
    requires c < |s.callers| && s.callers[c].Idle?
    ensures var (after, ok) := Attempt(l, s.bucket, now, 0);
            var r := FourMoves(l, s, c, now);
            && (!ok ==> r == s)
            && (ok ==>
                  Move(l, r, Turn(c, now, false))
                  == s.(bucket := after, admitted := s.admitted + 1,
                        credited := s.credited + Refill(l, s.bucket.lastUpdate, now)))
  {
    var t := Turn(c, now, false);
    var s1 := Move(l, s, t);
    var s2 := Move(l, s1, t);
    var s3 := Move(l, s2, t);
    assert s1.callers == s.callers[c := AtLast(now, 0)];
    assert s2.callers == s.callers[c := AtTokens(now, 0, s.bucket.lastUpdate)];
    assert s3.callers == s.callers[c := AtSwap(now, 0, s.bucket.lastUpdate, s.bucket.tokens)];
    assert s.callers[c := Idle] == s.callers;
  }

  /** Three moves of caller `c`, the last of which is a swap that fails for no reason. */
  function LoseSwap(l: Limit, s: State, c: nat): State {
    var t := Turn(c, 0, true);
    Move(l, Move(l, Move(l, s, t), t), t)
  }

  lemma LoseOne(l: Limit, s: State, c: nat, now: nat, attempt: nat)
    requires c < |s.callers| && s.callers[c] == AtLast(now, attempt)
    requires Topped(l, s.bucket.tokens, s.bucket.lastUpdate, now) >= TOKEN
    ensures LoseSwap(l, s, c) == At(s, c, if attempt + 1 < 8 then AtLast(now, attempt + 1) else Idle)
  {
    var t := Turn(c, 0, true);
    var s1 := Move(l, s, t);
    var s2 := Move(l, s1, t);
    assert s1.callers == s.callers[c := AtTokens(now, attempt, s.bucket.lastUpdate)];
    assert s2.callers == s.callers[c := AtSwap(now, attempt, s.bucket.lastUpdate, s.bucket.tokens)];
    var next := if attempt + 1 < 8 then AtLast(now, attempt + 1) else Idle;
    assert s2.callers[c := next] == s.callers[c := next];
  }

  /** The first move of a call, and then `lost` lost swaps. */
  function Lose(l: Limit, s: State, c: nat, now: nat, lost: nat): State {
    if lost == 0 then Move(l, s, Turn(c, now, false)) else LoseSwap(l, Lose(l, s, c, now, lost - 1), c)
  }

  lemma AtAgain(s: State, c: nat, x: Caller, y: Caller)
    requires c < |s.callers|
    ensures At(At(s, c, x), c, y) == At(s, c, y)
  {
    assert s.callers[c := x][c := y] == s.callers[c := y];
  }

  /** What a caller with `lost` lost swaps does next. */
  function Retry(now: nat, lost: nat): Caller {
    if lost < 8 then AtLast(now, lost) else Idle
  }

  /** Lost swaps are retried up to the eighth, which ends the call with the bucket as it was. */
  lemma {:induction false} LossesAreRetried(l: Limit, s: State, c: nat, now: nat, lost: nat)
    requires c < |s.callers| && s.callers[c].Idle? && lost <= 8
    requires Topped(l, s.bucket.tokens, s.bucket.lastUpdate, now) >= TOKEN
    ensures Lose(l, s, c, now, lost) == At(s, c, Retry(now, lost))
  {
    if lost == 0 {
    } else {
      LossesAreRetried(l, s, c, now, lost - 1);
      LoseOne(l, At(s, c, Retry(now, lost - 1)), c, now, lost - 1);
      AtAgain(s, c, Retry(now, lost - 1), Retry(now, lost));
    }
  }

  /** Two callers that both read the time of the last admission before either stamps its own credit one
      stretch of time twice. */
  lemma RacersCreditTwice(l: Limit, now: nat, refill: nat)
    requires refill == Refill(l, 0, now) && 1000 <= refill && 2 * refill < l.Cap()
    ensures var s := State(Bucket(0, 0), [Idle, Idle], 0, 0);
            var r := FourMoves(l, FourMoves(l, s, 0, now), 1, now);
            r.admitted == 2 && r.credited == 2 * refill
  {
    var s := State(Bucket(0, 0), [Idle, Idle], 0, 0);
    var r := FourMoves(l, s, 0, now);
    NoWrap(refill);
    FourMovesSwap(l, s, 0, now);
    NoWrap(refill - 1000 + refill);
    FourMovesSwap(l, r, 1, now);
  }

  lemma FourMovesSwap(l: Limit, s: State, c: nat, now: nat)
    requires c < |s.callers| && s.callers[c].Idle?
    requires Topped(l, s.bucket.tokens, s.bucket.lastUpdate, now) >= TOKEN
    ensures var topped := Topped(l, s.bucket.tokens, s.bucket.lastUpdate, now);
            var r := FourMoves(l, s, c, now);
            && r.bucket == s.bucket.(tokens := topped - TOKEN)
            && r.admitted == s.admitted + 1 && r.credited == s.credited + Refill(l, s.bucket.lastUpdate, now)
            && r.callers == s.callers[c := AtStamp(now, s.bucket.lastUpdate)]
  {
    var t := Turn(c, now, false);
    var s1 := Move(l, s, t);
    var s2 := Move(l, s1, t);
    var s3 := Move(l, s2, t);
    assert s1.callers == s.callers[c := AtLast(now, 0)];
    assert s2.callers == s.callers[c := AtTokens(now, 0, s.bucket.lastUpdate)];
    assert s3.callers == s.callers[c := AtSwap(now, 0, s.bucket.lastUpdate, s.bucket.tokens)];
  }
}
