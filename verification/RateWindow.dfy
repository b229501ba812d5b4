/** The sliding-window rate limit script: one sorted set per key, holding a member per admitted
    request, scored by its time in milliseconds. */
module RateWindow {
  import opened Wrappers

  /** A member's text is the time it was added and a random number; the time is also its score. */
  datatype Member = Member(time: nat, nonce: nat)

  /** The key's set together with the time at which the store drops the key. */
  datatype Zset = Zset(entries: set<Member>, expires: nat)

  /** What the store shows of the key at `now`. */
  function View(z: Zset, now: nat): set<Member> {
    if now >= z.expires then {} else z.entries
  }

  /** The members younger than `window` at time `t`. */
  function Younger(ms: set<Member>, window: nat, t: nat): set<Member> {
    set m | m in ms && t < m.time + window
  }

  datatype Verdict = Verdict(allowed: bool, remaining: nat, resetAt: nat)

  /** The key after the script, with the script's answer. */
  function Checked(z: Zset, limit: nat, window: nat, call: Member): (Zset, Verdict) {
    var now := call.time;
    var kept := Younger(View(z, now), window, now);
    if |kept| < limit then
      (Zset(kept + {call}, now + window), Verdict(true, limit - |kept| - 1, now + window))
    else
      (Zset(kept, z.expires), Verdict(false, 0, now + window))
  }

  class RateLimitKey {
    var z: Zset

    constructor ()
      ensures z == Zset({}, 0)
    {
      z := Zset({}, 0);
    }

    /** The script, command by command. */
    method CheckScript(limit: nat, windowSecs: nat, now: nat, nonce: nat) returns (v: Verdict)
      modifies this
      ensures (z, v) == Checked(old(z), limit, windowSecs * 1000, Member(now, nonce))
    {
      var window := windowSecs * 1000;
      var entries := View(z, now);
      var outdated := set m | m in entries && m.time + window <= now;
      entries := entries - outdated;
      assert entries == Younger(View(z, now), window, now);
      var count := |entries|;
      if count < limit {
        entries := entries + {Member(now, nonce)};
        z := Zset(entries, now + window);
        return Verdict(true, limit - count - 1, now + window);
      } else {
        z := Zset(entries, z.expires);
        return Verdict(false, 0, now + window);
      }
    }

    /** What is left, counted without trimming the set first. */
    method Remaining(limit: nat, now: nat) returns (left: nat)
      ensures left == Left(z, limit, now)
      ensures left > 0 ==> forall window, call: Member :: call.time == now ==>
                Checked(z, limit, window, call).1.allowed && left - 1 <= Checked(z, limit, window, call).1.remaining
    {
      forall window, call: Member | call.time == now
        ensures |Younger(View(z, now), window, now)| <= |View(z, now)|
      {
        SubsetSize(Younger(View(z, now), window, now), View(z, now));
      }
      var count := |View(z, now)|;
      left := if count <= limit then limit - count else 0;
    }
  }

  function Left(z: Zset, limit: nat, now: nat): nat {
    if |View(z, now)| <= limit then limit - |View(z, now)| else 0
  }

  // ---- Runs ----

  /** The key after a run of calls, with the log of the admitted ones. */
  function Run(limit: nat, window: nat, calls: seq<Member>): (Zset, seq<Member>) {
    if calls == [] then (Zset({}, 0), [])
    else
      var (z, log) := Run(limit, window, calls[..|calls| - 1]);
      var call := calls[|calls| - 1];
      var (z', v) := Checked(z, limit, window, call);
      (z', if v.allowed then log + [call] else log)
  }

  /** Timestamps never run backwards. */
  ghost predicate Ordered(calls: seq<Member>) {
    forall i, j :: 0 <= i <= j < |calls| ==> calls[i].time <= calls[j].time
  }

  ghost predicate NotBefore(calls: seq<Member>, t: nat) {
    forall i :: 0 <= i < |calls| ==> calls[i].time <= t
  }

  function Logged(log: seq<Member>): set<Member> {
    set m | m in log
  }

  /** The admitted members in the interval of length `window` ending with `t`. */
  function InWindow(log: seq<Member>, window: nat, t: nat): set<Member> {
    set m | m in log && m.time <= t < m.time + window
  }

  /** The key holds every admission younger than the window, and nothing that was not admitted. */
  ghost predicate Faithful(window: nat, z: Zset, log: seq<Member>, now: nat) {
    && NotBefore(log, now)
    && z.entries <= Logged(log)
    && Younger(Logged(log), window, now) <= z.entries
    && (forall m :: m in log ==> m.time + window <= z.expires)
  }

  lemma ViewIsFaithful(window: nat, z: Zset, log: seq<Member>, now: nat, t: nat)
    requires Faithful(window, z, log, now) && now <= t
    ensures Younger(View(z, t), window, t) == Younger(Logged(log), window, t)
  {
  }

  lemma CheckKeepsFaithful(limit: nat, window: nat, z: Zset, log: seq<Member>, now: nat, call: Member)
    requires Faithful(window, z, log, now) && now <= call.time
    ensures var (z', v) := Checked(z, limit, window, call);
            Faithful(window, z', if v.allowed then log + [call] else log, call.time)
  {
    var (z', v) := Checked(z, limit, window, call);
    ViewIsFaithful(window, z, log, now, call.time);
    var log' := if v.allowed then log + [call] else log;
    assert v.allowed ==> Logged(log') == Logged(log) + {call};
    assert Younger(Logged(log'), window, call.time) <= z'.entries;
  }

  lemma OrderedPrefix(calls: seq<Member>)
    requires Ordered(calls) && calls != []
    ensures var n := |calls| - 1; Ordered(calls[..n]) && NotBefore(calls[..n], calls[n].time)
  {
  }

  lemma {:induction false} RunIsFaithful(limit: nat, window: nat, calls: seq<Member>, t: nat)
    requires Ordered(calls) && NotBefore(calls, t)
    ensures var (z, log) := Run(limit, window, calls); Faithful(window, z, log, t)
  {
    if calls == [] {
    } else {
      var n := |calls| - 1;
      OrderedPrefix(calls);
      RunIsFaithful(limit, window, calls[..n], calls[n].time);
      var (z, log) := Run(limit, window, calls[..n]);
      CheckKeepsFaithful(limit, window, z, log, calls[n].time, calls[n]);
    }
  }

  /** Right after a check the key holds exactly the admissions younger than the window. */
  lemma StoredIsRecent(limit: nat, window: nat, calls: seq<Member>)
    requires Ordered(calls) && calls != []
    ensures var (z, log) := Run(limit, window, calls); var now := calls[|calls| - 1].time;
            View(z, now) == Younger(Logged(log), window, now)
  {
    var now := calls[|calls| - 1].time;
    RunIsFaithful(limit, window, calls, now);
    var (z, log) := Run(limit, window, calls);
    assert View(z, now) == Younger(View(z, now), window, now);
    ViewIsFaithful(window, z, log, now, now);
  }

  /** A call is admitted exactly when the log shows fewer than `limit` admissions in the window
      before it, and it is told exactly what is then left. */
  lemma VerdictIsExact(limit: nat, window: nat, calls: seq<Member>, call: Member)
    requires Ordered(calls) && NotBefore(calls, call.time)
    ensures var (z, log) := Run(limit, window, calls);
            var v := Checked(z, limit, window, call).1;
            var recent := Younger(Logged(log), window, call.time);
            && (v.allowed <==> |recent| < limit)
            && v.remaining == if v.allowed then limit - |recent| - 1 else 0
  {
    RunIsFaithful(limit, window, calls, call.time);
    var (z, log) := Run(limit, window, calls);
    ViewIsFaithful(window, z, log, call.time, call.time);
  }

  lemma SubsetSize<T>(a: set<T>, b: set<T>)
    requires a <= b
    ensures |a| <= |b|
  {
    assert b == a + (b - a);
  }

  /** Over every run, no interval of the window's length, ending anywhere, holds more than `limit`
      admitted members. */
  lemma {:induction false} WindowNeverExceeded(limit: nat, window: nat, calls: seq<Member>, t: nat)
    requires Ordered(calls)
    ensures |InWindow(Run(limit, window, calls).1, window, t)| <= limit
  {
    if calls == [] {
      assert InWindow([], window, t) == {};
    } else {
      var n := |calls| - 1;
      OrderedPrefix(calls);
      WindowNeverExceeded(limit, window, calls[..n], t);
      RunIsFaithful(limit, window, calls[..n], calls[n].time);
      var (z, log) := Run(limit, window, calls[..n]);
      OneMoreFits(limit, window, z, log, calls[n], t);
    }
  }

  lemma OneMoreFits(limit: nat, window: nat, z: Zset, log: seq<Member>, call: Member, t: nat)
    requires Faithful(window, z, log, call.time)
    requires |InWindow(log, window, t)| <= limit
    ensures var v := Checked(z, limit, window, call).1;
            |InWindow(if v.allowed then log + [call] else log, window, t)| <= limit
  {
    if Checked(z, limit, window, call).1.allowed {
      var kept := Younger(View(z, call.time), window, call.time);
      ViewIsFaithful(window, z, log, call.time, call.time);
      if t < call.time {
        assert InWindow(log + [call], window, t) == InWindow(log, window, t);
      } else {
        SubsetSize(InWindow(log + [call], window, t), kept + {call});
      }
    }
  }

  /** The unlocked query never reports more than is really left. */
  lemma RemainingNeverOverReports(limit: nat, window: nat, calls: seq<Member>, t: nat)
    requires Ordered(calls) && NotBefore(calls, t)
    ensures var (z, log) := Run(limit, window, calls);
            Left(z, limit, t) <= limit - |InWindow(log, window, t)|
  {
    var (z, log) := Run(limit, window, calls);
    RunIsFaithful(limit, window, calls, t);
    WindowNeverExceeded(limit, window, calls, t);
    ViewIsFaithful(window, z, log, t, t);
    assert InWindow(log, window, t) == Younger(View(z, t), window, t);
    SubsetSize(InWindow(log, window, t), View(z, t));
  }

  lemma CheckHoldsAtMost(limit: nat, window: nat, z: Zset, call: Member)
    requires |z.entries| <= limit
    ensures |Checked(z, limit, window, call).0.entries| <= limit
  {
    SubsetSize(Younger(View(z, call.time), window, call.time), z.entries);
  }

  /** The set never holds more than `limit` members, and the store drops it when the last admission has
      left the window. */
  lemma {:induction false} RunHoldsAtMost(limit: nat, window: nat, calls: seq<Member>)
    ensures var (z, log) := Run(limit, window, calls);
            && |z.entries| <= limit
            && z.expires == if log == [] then 0 else log[|log| - 1].time + window
  {
    if calls == [] {
    } else {
      var n := |calls| - 1;
      RunHoldsAtMost(limit, window, calls[..n]);
      CheckHoldsAtMost(limit, window, Run(limit, window, calls[..n]).0, calls[n]);
    }
  }

  /** Everything the key shows is in the window. */
  ghost predicate Trimmed(z: Zset, window: nat, t: nat) {
    forall m :: m in View(z, t) ==> t < m.time + window
  }

  /** The query reports exactly what is left if and only if the key shows nothing older than the window. */
  lemma RemainingIsExactly(limit: nat, window: nat, calls: seq<Member>, t: nat)
    requires Ordered(calls) && NotBefore(calls, t)
    ensures var (z, log) := Run(limit, window, calls);
            Left(z, limit, t) == limit - |InWindow(log, window, t)| <==> Trimmed(z, window, t)
  {
    var (z, log) := Run(limit, window, calls);
    RunIsFaithful(limit, window, calls, t);
    RunHoldsAtMost(limit, window, calls);
    ViewIsFaithful(window, z, log, t, t);
    var shown, young := View(z, t), InWindow(log, window, t);
    assert young == Younger(shown, window, t);
    SubsetSize(shown, z.entries);
    if Trimmed(z, window, t) {
      assert young == shown;
    } else {
      var m :| m in shown && !(t < m.time + window);
      SubsetSize(young, shown - {m});
    }
  }

  /** Right after every check the query is exact, and so it is once the last admission has left the
      window, when the whole limit is left. */
  lemma RemainingAfterCheck(limit: nat, window: nat, calls: seq<Member>, t: nat)
    requires Ordered(calls) && calls != [] && t >= calls[|calls| - 1].time
    ensures var (z, log) := Run(limit, window, calls);
            && (t == calls[|calls| - 1].time ==> Left(z, limit, t) == limit - |InWindow(log, window, t)|)
            && (log == [] || t >= log[|log| - 1].time + window ==> Left(z, limit, t) == limit)
  {
    var (z, log) := Run(limit, window, calls);
    RunHoldsAtMost(limit, window, calls);
    if t == calls[|calls| - 1].time {
      StoredIsRecent(limit, window, calls);
      RemainingIsExactly(limit, window, calls, t);
    }
  }

  /** At the reset time of an answer nothing that counted when it was given counts any more; of an
      admission, this is the first such time. */
  lemma ResetIsExact(limit: nat, window: nat, calls: seq<Member>, call: Member, t: nat)
    requires Ordered(calls) && NotBefore(calls, call.time) && call.time <= t
    ensures var (z, log) := Run(limit, window, calls);
            var v := Checked(z, limit, window, call).1;
            var now := if v.allowed then log + [call] else log;
            && (t >= v.resetAt ==> InWindow(now, window, t) == {})
            && (v.allowed && t < v.resetAt ==> call in InWindow(now, window, t))
  {
    RunIsFaithful(limit, window, calls, call.time);
  }

  // ---- Admissions and members ----

  /** How many admissions, rather than members, the first `n` log entries have in the interval. */
  function Admissions(log: seq<Member>, window: nat, t: nat, n: nat): nat
    requires n <= |log|
  {
    if n == 0 then 0
    else Admissions(log, window, t, n - 1) + if log[n - 1].time <= t < log[n - 1].time + window then 1 else 0
  }

  ghost predicate Distinct(calls: seq<Member>) {
    forall i, j :: 0 <= i < j < |calls| ==> calls[i] != calls[j]
  }

  lemma OneMoreAdmission(log: seq<Member>, m: Member, window: nat, t: nat)
    requires m !in log
    ensures |InWindow(log + [m], window, t)|
         == |InWindow(log, window, t)| + if m.time <= t < m.time + window then 1 else 0
  {
    if m.time <= t < m.time + window {
      assert InWindow(log + [m], window, t) == InWindow(log, window, t) + {m};
    } else {
      assert InWindow(log + [m], window, t) == InWindow(log, window, t);
    }
  }

  lemma {:induction false} LogIsDistinct(limit: nat, window: nat, calls: seq<Member>)
    requires Distinct(calls)
    ensures Distinct(Run(limit, window, calls).1)
    ensures forall m :: m in Run(limit, window, calls).1 ==> m in calls
  {
    if calls == [] {
    } else {
      var n := |calls| - 1;
      LogIsDistinct(limit, window, calls[..n]);
      assert calls[n] !in calls[..n];
      assert calls == calls[..n] + [calls[n]];
      var log := Run(limit, window, calls[..n]).1;
      assert calls[n] !in log;
      assert Distinct(log + [calls[n]]);
    }
  }

  /** How many of the first `n` admissions in the interval repeat a member admitted before. */
  function Repeats(log: seq<Member>, window: nat, t: nat, n: nat): nat
    requires n <= |log|
  {
    if n == 0 then 0
    else
      var m := log[n - 1];
      Repeats(log, window, t, n - 1) + if m.time <= t < m.time + window && m in log[..n - 1] then 1 else 0
  }

  lemma OneRepeat(log: seq<Member>, m: Member, window: nat, t: nat)
    requires m in log
    ensures InWindow(log + [m], window, t) == InWindow(log, window, t)
  {
  }

  /** Every admission is a new member of the window or a repeat. */
  lemma {:induction false} AdmissionsAreMembersAndRepeats(log: seq<Member>, window: nat, t: nat, n: nat)
    requires n <= |log|
    ensures Admissions(log, window, t, n) == |InWindow(log[..n], window, t)| + Repeats(log, window, t, n)
  {
    if n == 0 {
      assert InWindow(log[..0], window, t) == {};
    } else {
      var before, m := log[..n - 1], log[n - 1];
      AdmissionsAreMembersAndRepeats(log, window, t, n - 1);
      assert log[..n] == before + [m];
      if m in before {
        OneRepeat(before, m, window, t);
      } else {
        OneMoreAdmission(before, m, window, t);
      }
    }
  }

  lemma {:induction false} DistinctHasNoRepeats(log: seq<Member>, window: nat, t: nat, n: nat)
    requires Distinct(log) && n <= |log|
    ensures Repeats(log, window, t, n) == 0
  {
    if n == 0 {
    } else {
      DistinctHasNoRepeats(log, window, t, n - 1);
    }
  }

  /** Sliding-window safety, whatever members are drawn: any interval of the window's length admits at
      most `limit` requests beyond those that repeat an admitted member, and so at most `limit` when
      no two calls draw the same one. */
  lemma AtMostLimitAdmitted(limit: nat, window: nat, calls: seq<Member>, t: nat)
    requires Ordered(calls)
    ensures var log := Run(limit, window, calls).1;
            && Admissions(log, window, t, |log|) <= limit + Repeats(log, window, t, |log|)
            && (Distinct(calls) ==> Admissions(log, window, t, |log|) <= limit)
  {
    var log := Run(limit, window, calls).1;
    AdmissionsAreMembersAndRepeats(log, window, t, |log|);
    assert log[..|log|] == log;
    WindowNeverExceeded(limit, window, calls, t);
    if Distinct(calls) {
      LogIsDistinct(limit, window, calls);
      DistinctHasNoRepeats(log, window, t, |log|);
    }
  }

  lemma RunAppend(limit: nat, window: nat, calls: seq<Member>, call: Member)
    ensures var (z, log) := Run(limit, window, calls);
            var (z', v) := Checked(z, limit, window, call);
            Run(limit, window, calls + [call]) == (z', if v.allowed then log + [call] else log)
  {
    assert (calls + [call])[..|calls|] == calls;
  }

  // ---- Exactly when collisions do no harm ----

  function Repeated(m: Member, n: nat): seq<Member> {
    seq(n, _ => m)
  }

  lemma SameAgain(limit: nat, window: nat, m: Member, z: Zset)
    requires limit >= 1 && window > 0
    requires z == Zset({}, 0) || (limit >= 2 && z == Zset({m}, m.time + window))
    ensures var (z', v) := Checked(z, limit, window, m); z' == Zset({m}, m.time + window) && v.allowed
  {
    var kept := Younger(View(z, m.time), window, m.time);
    assert kept == z.entries;
    assert kept + {m} == {m};
  }

  /** However many requests draw the same member, they count once and are all admitted. */
  lemma {:induction false} CollisionsAreCountedOnce(limit: nat, window: nat, m: Member, n: nat)
    requires limit >= 2 && window > 0
    ensures Run(limit, window, Repeated(m, n)).1 == Repeated(m, n)
    ensures n > 0 ==> Run(limit, window, Repeated(m, n)).0 == Zset({m}, m.time + window)
  {
    if n == 0 {
    } else {
      CollisionsAreCountedOnce(limit, window, m, n - 1);
      var (z, log) := Run(limit, window, Repeated(m, n - 1));
      SameAgain(limit, window, m, z);
      RunAppend(limit, window, Repeated(m, n - 1), m);
      assert Repeated(m, n - 1) + [m] == Repeated(m, n);
    }
  }

  lemma {:induction false} RepeatsAllCount(window: nat, m: Member, k: nat, n: nat)
    requires window > 0 && n <= k
    ensures Admissions(Repeated(m, k), window, m.time, n) == n
  {
    if n == 0 {
    } else {
      RepeatsAllCount(window, m, k, n - 1);
    }
  }

  /** With a limit of one, a member that is still in the window is not admitted again. */
  lemma {:induction false} SinglesAreDistinct(limit: nat, window: nat, calls: seq<Member>)
    requires limit <= 1 && window > 0 && Ordered(calls)
    ensures Distinct(Run(limit, window, calls).1)
  {
    if calls == [] {
    } else {
      var n := |calls| - 1;
      var call, log := calls[n], Run(limit, window, calls[..n]).1;
      OrderedPrefix(calls);
      SinglesAreDistinct(limit, window, calls[..n]);
      VerdictIsExact(limit, window, calls[..n], call);
      if call in log {
        assert call in Younger(Logged(log), window, call.time);
      } else {
        assert Distinct(log + [call]);
      }
    }
  }

  lemma {:induction false} NoneInEmptyWindow(log: seq<Member>, t: nat, n: nat)
    requires n <= |log|
    ensures Admissions(log, 0, t, n) == 0
  {
    if n == 0 {
    } else {
      NoneInEmptyWindow(log, t, n - 1);
    }
  }

  lemma HarmlessLimit(limit: nat, window: nat, calls: seq<Member>, t: nat)
    requires (limit <= 1 || window == 0) && Ordered(calls)
    ensures var log := Run(limit, window, calls).1; Admissions(log, window, t, |log|) <= limit
  {
    var log := Run(limit, window, calls).1;
    if window == 0 {
      NoneInEmptyWindow(log, t, |log|);
    } else {
      SinglesAreDistinct(limit, window, calls);
      AdmissionsAreMembersAndRepeats(log, window, t, |log|);
      DistinctHasNoRepeats(log, window, t, |log|);
      assert log[..|log|] == log;
      WindowNeverExceeded(limit, window, calls, t);
    }
  }

  ghost predicate NeverOverAdmits(limit: nat, window: nat) {
    forall calls, t :: Ordered(calls) ==>
      Admissions(Run(limit, window, calls).1, window, t, |Run(limit, window, calls).1|) <= limit
  }

  /** The script keeps every interval of the window's length to `limit` admitted requests, whatever
      members are drawn, exactly when the limit is at most one or the window is empty. */
  lemma NeverOverAdmitsExactly(limit: nat, window: nat)
    ensures NeverOverAdmits(limit, window) <==> limit <= 1 || window == 0
  {
    if limit <= 1 || window == 0 {
      forall calls, t | Ordered(calls)
        ensures Admissions(Run(limit, window, calls).1, window, t, |Run(limit, window, calls).1|) <= limit
      {
        HarmlessLimit(limit, window, calls, t);
      }
    } else {
      var m := Member(0, 0);
      var calls := Repeated(m, limit + 1);
      CollisionsAreCountedOnce(limit, window, m, limit + 1);
      RepeatsAllCount(window, m, limit + 1, limit + 1);
      assert Ordered(calls) && Admissions(Run(limit, window, calls).1, window, m.time, limit + 1) == limit + 1;
    }
  }
}
