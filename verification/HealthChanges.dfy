/** Recording a response and carrying its change over to the balancer are two steps: requests are
    handled concurrently, and the checker's lock is released in between. */
module HealthChanges {
  import opened PassiveHealth
  import opened Sequences
  import opened Wrappers

  /** A change that was recorded and is still to be applied. */
  datatype Pending = Pending(service: nat, url: string, change: HealthChange)

  datatype State = State(backends: Verdicts, flags: seq<seq<bool>>, pending: seq<Pending>)

  datatype Event = Record(r: Response) | Apply(k: nat)

  ghost predicate Formed(services: Services, s: State) {
    Shaped(services, Proxy(s.backends, s.flags))
  }

  function Without(pending: seq<Pending>, k: nat): seq<Pending>
    requires k < |pending|
  {
    pending[..k] + pending[k + 1..]
  }

  function Recording(cfg: Config, s: State, r: Response): (Backend, HealthChange) {
    Recorded(cfg, StateOf(s.backends, r.url), IsFailure(cfg, r.status, r.elapsedMs), r.now)
  }

  function Step(cfg: Config, services: Services, s: State, e: Event): (t: State)
    requires Formed(services, s)
    ensures Formed(services, t)
  {
    match e
    case Record(r) =>
      var (b, change) := Recording(cfg, s, r);
      State(s.backends[r.url := b], s.flags,
            if change == NoChange then s.pending else s.pending + [Pending(r.service, r.url, change)])
    case Apply(k) =>
      if k >= |s.pending| then s
      else
        var p := s.pending[k];
        s.(flags := ApplyChange(services, s.flags, p.service, p.url, p.change), pending := Without(s.pending, k))
  }

  function Exec(cfg: Config, services: Services, events: seq<Event>): (s: State)
    ensures Formed(services, s)
  {
    if events == [] then State(map[], Fresh(services).flags, [])
    else Step(cfg, services, Exec(cfg, services, events[..|events| - 1]), events[|events| - 1])
  }

  predicate GenuineEvent(services: Services, e: Event) {
    e.Record? ==> e.r.service < |services| && e.r.url in services[e.r.service]
  }

  predicate GenuineRun(services: Services, events: seq<Event>) {
    forall k :: 0 <= k < |events| ==> GenuineEvent(services, events[k])
  }

  /** A change is applied only when no earlier one of the same backend is pending. */
  predicate OrderedAt(s: State, e: Event) {
    e.Apply? && e.k < |s.pending| ==> forall j :: 0 <= j < e.k ==> s.pending[j].url != s.pending[e.k].url
  }

  ghost predicate OrderedRun(cfg: Config, services: Services, events: seq<Event>) {
    forall k :: 0 <= k < |events| ==> OrderedAt(Exec(cfg, services, events[..k]), events[k])
  }

  ghost predicate Agrees(services: Services, s: State)
    requires Formed(services, s)
  {
    InStep(services, Proxy(s.backends, s.flags))
  }

  // ---- The changes of one backend ----

  /** The changes pending for `url`, in order. */
  function Queue(pending: seq<Pending>, url: string): seq<HealthChange> {
    if pending == [] then []
    else
      var n := |pending| - 1;
      var before := Queue(pending[..n], url);
      if pending[n].url == url then before + [pending[n].change] else before
  }

  lemma QueueOneMore(pending: seq<Pending>, p: Pending, url: string)
    ensures Queue(pending + [p], url)
         == if p.url == url then Queue(pending, url) + [p.change] else Queue(pending, url)
  {
    assert (pending + [p])[..|pending|] == pending;
  }

  lemma {:induction false} QueueConcat(a: seq<Pending>, b: seq<Pending>, url: string)
    ensures Queue(a + b, url) == Queue(a, url) + Queue(b, url)
  {
    if b == [] {
      assert a + b == a && Queue(a, url) + [] == Queue(a, url);
    } else {
      var n := |b| - 1;
      QueueConcat(a, b[..n], url);
      QueueOneMore(a + b[..n], b[n], url);
      assert a + b == a + b[..n] + [b[n]];
      if b[n].url == url {
        Regroup(Queue(a, url), Queue(b[..n], url), [b[n].change]);
      }
    }
  }

  lemma {:induction false} QueueOfOthers(pending: seq<Pending>, url: string)
    requires forall j :: 0 <= j < |pending| ==> pending[j].url != url
    ensures Queue(pending, url) == []
  {
    if pending == [] {
    } else {
      QueueOfOthers(pending[..|pending| - 1], url);
    }
  }

  lemma QueueApart(pending: seq<Pending>, k: nat, url: string)
    requires k < |pending|
    ensures Queue(pending, url) == Queue(pending[..k + 1], url) + Queue(pending[k + 1..], url)
    ensures Queue(Without(pending, k), url) == Queue(pending[..k], url) + Queue(pending[k + 1..], url)
    ensures Queue(pending[..k + 1], url)
         == if pending[k].url == url then Queue(pending[..k], url) + [pending[k].change] else Queue(pending[..k], url)
  {
    assert pending == pending[..k + 1] + pending[k + 1..] && pending[..k + 1] == pending[..k] + [pending[k]];
    QueueConcat(pending[..k + 1], pending[k + 1..], url);
    QueueConcat(pending[..k], pending[k + 1..], url);
    QueueOneMore(pending[..k], pending[k], url);
  }

  /** Taking out the first change of a backend shortens its queue by just that, and no other queue. */
  lemma QueueWithout(s: State, k: nat, url: string)
    requires k < |s.pending| && OrderedAt(s, Apply(k))
    ensures if s.pending[k].url == url
            then Queue(s.pending, url) == [s.pending[k].change] + Queue(Without(s.pending, k), url)
            else Queue(s.pending, url) == Queue(Without(s.pending, k), url)
  {
    QueueApart(s.pending, k, url);
    if s.pending[k].url == url {
      QueueOfOthers(s.pending[..k], url);
    }
  }

  /** The change that flips a flag or a verdict. */
  function Flip(up: bool): HealthChange {
    if up then BecameUnhealthy else BecameHealthy
  }

  /** The changes lead from the flag to the verdict, flipping each time. */
  predicate Leads(flag: bool, changes: seq<HealthChange>, verdict: bool)
    decreases |changes|
  {
    if changes == [] then flag == verdict
    else changes[0] == Flip(flag) && Leads(!flag, changes[1..], verdict)
  }

  lemma {:induction false} LeadsFurther(flag: bool, changes: seq<HealthChange>, verdict: bool)
    requires Leads(flag, changes, verdict)
    ensures Leads(flag, changes + [Flip(verdict)], !verdict)
    decreases |changes|
  {
    var more := changes + [Flip(verdict)];
    if changes == [] {
      assert more == [Flip(flag)] && more[1..] == [];
    } else {
      LeadsFurther(!flag, changes[1..], verdict);
      assert more[1..] == changes[1..] + [Flip(verdict)];
    }
  }

  // ---- Every run ----

  /** Every pending change is of a server of its service. */
  ghost predicate GenuinePending(services: Services, s: State) {
    forall j :: 0 <= j < |s.pending| ==>
      && s.pending[j].service < |services| && s.pending[j].url in services[s.pending[j].service]
      && s.pending[j].change != NoChange
  }

  ghost predicate Tracked(services: Services, s: State, v: nat, i: nat)
    requires Formed(services, s) && v < |services| && i < |services[v]|
  {
    var url := services[v][i];
    Leads(s.flags[v][i], Queue(s.pending, url), IsHealthy(s.backends, url))
  }

  lemma RecordedVerdict(cfg: Config, s: State, r: Response, b: Backend, change: HealthChange)
    requires Recording(cfg, s, r) == (b, change)
    ensures var was := IsHealthy(s.backends, r.url);
            if change == NoChange then b.healthy == was else change == Flip(was) && b.healthy == !was
  {
    ChangeIsFlip(cfg, StateOf(s.backends, r.url), IsFailure(cfg, r.status, r.elapsedMs), r.now);
  }

  lemma RecordKeepsTracked(cfg: Config, services: Services, s: State, r: Response, v: nat, i: nat)
    requires Formed(services, s) && v < |services| && i < |services[v]| && Tracked(services, s, v, i)
    ensures Tracked(services, Step(cfg, services, s, Record(r)), v, i)
  {
    var url := services[v][i];
    var (b, change) := Recording(cfg, s, r);
    RecordedVerdict(cfg, s, r, b, change);
    QueueOneMore(s.pending, Pending(r.service, r.url, change), url);
    var backends := s.backends[r.url := b];
    if url != r.url {
      assert IsHealthy(backends, url) == IsHealthy(s.backends, url);
    } else if change != NoChange {
      LeadsFurther(s.flags[v][i], Queue(s.pending, url), IsHealthy(s.backends, url));
    }
  }

  lemma ApplyKeepsTracked(cfg: Config, services: Services, s: State, k: nat, v: nat, i: nat)
    requires Unique(services) && Formed(services, s) && GenuinePending(services, s) && OrderedAt(s, Apply(k))
    requires v < |services| && i < |services[v]| && Tracked(services, s, v, i)
    ensures Tracked(services, Step(cfg, services, s, Apply(k)), v, i)
  {
    if k < |s.pending| {
      var p, url := s.pending[k], services[v][i];
      QueueWithout(s, k, url);
      var x := IndexOf(services[p.service], p.url);
      assert x < |services[p.service]| && services[p.service][x] == p.url;
      if p.url == url {
        assert v == p.service && i == x;
        assert ([p.change] + Queue(Without(s.pending, k), url))[1..] == Queue(Without(s.pending, k), url);
      }
    }
  }

  lemma StepKeepsGenuine(cfg: Config, services: Services, s: State, e: Event)
    requires Formed(services, s) && GenuinePending(services, s) && GenuineEvent(services, e)
    ensures GenuinePending(services, Step(cfg, services, s, e))
  {
  }

  lemma {:induction false} PendingIsGenuine(cfg: Config, services: Services, events: seq<Event>)
    requires GenuineRun(services, events)
    ensures GenuinePending(services, Exec(cfg, services, events))
  {
    if events == [] {
    } else {
      var n := |events| - 1;
      PendingIsGenuine(cfg, services, events[..n]);
      StepKeepsGenuine(cfg, services, Exec(cfg, services, events[..n]), events[n]);
    }
  }

  lemma OrderedPrefix(cfg: Config, services: Services, events: seq<Event>)
    requires OrderedRun(cfg, services, events) && events != []
    ensures var n := |events| - 1;
            OrderedRun(cfg, services, events[..n]) && OrderedAt(Exec(cfg, services, events[..n]), events[n])
  {
    var before := events[..|events| - 1];
    forall k | 0 <= k < |before|
      ensures OrderedAt(Exec(cfg, services, before[..k]), before[k])
    {
      assert before[..k] == events[..k];
    }
  }

  /** In every interleaving in which each backend's changes are applied in the order recorded, what is
      pending for a server leads from its flag to its verdict. */
  lemma {:induction false} AlwaysTracked(cfg: Config, services: Services, events: seq<Event>, v: nat, i: nat)
    requires Unique(services) && GenuineRun(services, events) && OrderedRun(cfg, services, events)
    requires v < |services| && i < |services[v]|
    ensures Tracked(services, Exec(cfg, services, events), v, i)
  {
    if events == [] {
    } else {
      var n := |events| - 1;
      var s := Exec(cfg, services, events[..n]);
      OrderedPrefix(cfg, services, events);
      AlwaysTracked(cfg, services, events[..n], v, i);
      PendingIsGenuine(cfg, services, events[..n]);
      match events[n]
      case Record(r) => RecordKeepsTracked(cfg, services, s, r, v, i);
      case Apply(k) => ApplyKeepsTracked(cfg, services, s, k, v, i);
    }
  }

  // ---- Nothing ever trips ----

  ghost predicate Quiet(services: Services, s: State) {
    s.pending == [] && s.flags == Fresh(services).flags && forall url :: Spotless(StateOf(s.backends, url))
  }

  lemma StepKeepsQuiet(cfg: Config, services: Services, s: State, e: Event)
    requires !CanTrip(cfg) && Formed(services, s) && Quiet(services, s)
    ensures Quiet(services, Step(cfg, services, s, e))
  {
    match e
    case Record(r) =>
      StaysSpotless(cfg, StateOf(s.backends, r.url), r.now);
      var t := Step(cfg, services, s, e);
      forall url
        ensures Spotless(StateOf(t.backends, url))
      {
        assert url != r.url ==> StateOf(t.backends, url) == StateOf(s.backends, url);
      }
    case Apply(_) =>
  }

  lemma {:induction false} AlwaysQuiet(cfg: Config, services: Services, events: seq<Event>)
    requires !CanTrip(cfg)
    ensures Quiet(services, Exec(cfg, services, events))
  {
    if events == [] {
    } else {
      AlwaysQuiet(cfg, services, events[..|events| - 1]);
      StepKeepsQuiet(cfg, services, Exec(cfg, services, events[..|events| - 1]), events[|events| - 1]);
    }
  }

  lemma QuietAgrees(services: Services, s: State)
    requires Formed(services, s) && Quiet(services, s)
    ensures Agrees(services, s)
  {
    forall v, i | 0 <= v < |services| && 0 <= i < |services[v]|
      ensures s.flags[v][i] == IsHealthy(s.backends, services[v][i])
    {
      assert Spotless(StateOf(s.backends, services[v][i]));
    }
  }

  // ---- One request at a time ----

  /** Each change applied before the next response is recorded. */
  function OneByOne(rs: seq<Response>): seq<Event> {
    if rs == [] then [] else OneByOne(rs[..|rs| - 1]) + [Record(rs[|rs| - 1])] + [Apply(0)]
  }

  lemma ExecNext(cfg: Config, services: Services, events: seq<Event>, e: Event)
    ensures Exec(cfg, services, events + [e]) == Step(cfg, services, Exec(cfg, services, events), e)
  {
    assert (events + [e])[..|events|] == events;
  }

  lemma HandledInTwoSteps(cfg: Config, services: Services, s: State, r: Response)
    requires Formed(services, s) && s.pending == []
    ensures var p := Handle(cfg, services, Proxy(s.backends, s.flags), r);
            Step(cfg, services, Step(cfg, services, s, Record(r)), Apply(0)) == State(p.backends, p.flags, [])
  {
  }

  lemma {:induction false} OneByOneIsSequential(cfg: Config, services: Services, rs: seq<Response>)
    ensures var p := HandleAll(cfg, services, rs);
            Exec(cfg, services, OneByOne(rs)) == State(p.backends, p.flags, [])
  {
    if rs == [] {
    } else {
      var n := |rs| - 1;
      var before := OneByOne(rs[..n]);
      OneByOneIsSequential(cfg, services, rs[..n]);
      ExecNext(cfg, services, before, Record(rs[n]));
      ExecNext(cfg, services, before + [Record(rs[n])], Apply(0));
      HandledInTwoSteps(cfg, services, Exec(cfg, services, before), rs[n]);
    }
  }

  lemma {:induction false} OneByOneIsGenuine(services: Services, rs: seq<Response>)
    requires Genuine(services, rs)
    ensures GenuineRun(services, OneByOne(rs))
    ensures forall k :: 0 <= k < |OneByOne(rs)| && OneByOne(rs)[k].Apply? ==> OneByOne(rs)[k].k == 0
  {
    if rs == [] {
    } else {
      OneByOneIsGenuine(services, rs[..|rs| - 1]);
    }
  }

  // ---- Exactly when flags follow verdicts ----

  /** A genuine run that has applied all its changes. */
  ghost predicate Settled(cfg: Config, services: Services, events: seq<Event>) {
    GenuineRun(services, events) && Exec(cfg, services, events).pending == []
  }

  ghost predicate FollowsInOrder(cfg: Config, services: Services) {
    forall events :: Settled(cfg, services, events) && OrderedRun(cfg, services, events) ==>
      Agrees(services, Exec(cfg, services, events))
  }

  ghost predicate FollowsInAnyOrder(cfg: Config, services: Services) {
    forall events :: Settled(cfg, services, events) ==> Agrees(services, Exec(cfg, services, events))
  }

  lemma UniqueFollows(cfg: Config, services: Services, events: seq<Event>)
    requires Unique(services) && Settled(cfg, services, events) && OrderedRun(cfg, services, events)
    ensures Agrees(services, Exec(cfg, services, events))
  {
    var s := Exec(cfg, services, events);
    forall v, i | 0 <= v < |services| && 0 <= i < |services[v]|
      ensures s.flags[v][i] == IsHealthy(s.backends, services[v][i])
    {
      AlwaysTracked(cfg, services, events, v, i);
    }
  }

  /** Under every interleaving that applies each backend's changes in the order recorded, the flags show
      the verdicts whenever nothing is pending, exactly when no URL is listed twice (or the configuration
      lets no response count as a failure). */
  lemma FollowsInOrderExactly(cfg: Config, services: Services)
    ensures FollowsInOrder(cfg, services) <==> Unique(services) || !CanTrip(cfg)
  {
    if Unique(services) || !CanTrip(cfg) {
      forall events | Settled(cfg, services, events) && OrderedRun(cfg, services, events)
        ensures Agrees(services, Exec(cfg, services, events))
      {
        if Unique(services) {
          UniqueFollows(cfg, services, events);
        } else {
          AlwaysQuiet(cfg, services, events);
          QuietAgrees(services, Exec(cfg, services, events));
        }
      }
    } else {
      var rs := DuplicateFallsOut(cfg, services);
      OneByOneIsSequential(cfg, services, rs);
      OneByOneIsGenuine(services, rs);
      var events := OneByOne(rs);
      assert OrderedRun(cfg, services, events);
      assert !Agrees(services, Exec(cfg, services, events));
    }
  }

  // ---- The order is needed ----

  lemma NotIn(codes: set<nat>) returns (status: nat)
    ensures status !in codes
  {
    status := 0;
    var rest := codes;
    while rest != {}
      invariant rest <= codes && forall c :: c in codes && c !in rest ==> c < status
      decreases |rest|
    {
      var c :| c in rest;
      rest := rest - {c};
      if c >= status {
        status := c + 1;
      }
    }
  }

  lemma FailsOrTrips(cfg: Config, services: Services, s: State, r: Response)
    requires Formed(services, s) && StateOf(s.backends, r.url).healthy
    requires cfg.failureThreshold == 0 || IsFailure(cfg, r.status, r.elapsedMs)
    ensures var b, t := StateOf(s.backends, r.url), Step(cfg, services, s, Record(r));
            var b' := StateOf(t.backends, r.url);
            && t.flags == s.flags
            && (if b'.healthy
                then t.pending == s.pending && b'.consecutiveFailures == b.consecutiveFailures + 1 < cfg.failureThreshold
                else t.pending == s.pending + [Pending(r.service, r.url, BecameUnhealthy)])
  {
  }

  lemma {:induction false} TripsPending(cfg: Config, services: Services, events: seq<Event>, r: Response, left: nat)
      returns (more: seq<Event>)
    requires GenuineRun(services, events) && GenuineEvent(services, Record(r))
    requires cfg.failureThreshold == 0 || IsFailure(cfg, r.status, r.elapsedMs)
    requires var s := Exec(cfg, services, events);
             && s.pending == [] && s.flags == Fresh(services).flags && StateOf(s.backends, r.url).healthy
             && StateOf(s.backends, r.url).consecutiveFailures + left >= cfg.failureThreshold
    ensures GenuineRun(services, more)
    ensures var s := Exec(cfg, services, more);
            && s.pending == [Pending(r.service, r.url, BecameUnhealthy)] && s.flags == Fresh(services).flags
            && !StateOf(s.backends, r.url).healthy
    decreases left
  {
    more := events + [Record(r)];
    ExecNext(cfg, services, events, Record(r));
    FailsOrTrips(cfg, services, Exec(cfg, services, events), r);
    if StateOf(Exec(cfg, services, more).backends, r.url).healthy {
      more := TripsPending(cfg, services, more, r, left - 1);
    }
  }

  lemma SucceedsOrRecovers(cfg: Config, services: Services, s: State, r: Response)
    requires Formed(services, s) && !StateOf(s.backends, r.url).healthy && !IsFailure(cfg, r.status, r.elapsedMs)
    ensures var b, t := StateOf(s.backends, r.url), Step(cfg, services, s, Record(r));
            var b' := StateOf(t.backends, r.url);
            && t.flags == s.flags
            && (if b'.healthy then t.pending == s.pending + [Pending(r.service, r.url, BecameHealthy)]
                else t.pending == s.pending && b'.consecutiveSuccesses == b.consecutiveSuccesses + 1 < cfg.successThreshold)
  {
  }

  lemma {:induction false} RecoversPending(cfg: Config, services: Services, events: seq<Event>, r: Response, p: Pending, left: nat)
      returns (more: seq<Event>)
    requires GenuineRun(services, events) && GenuineEvent(services, Record(r)) && !IsFailure(cfg, r.status, r.elapsedMs)
    requires var s := Exec(cfg, services, events);
             && s.pending == [p] && s.flags == Fresh(services).flags && !StateOf(s.backends, r.url).healthy
             && StateOf(s.backends, r.url).consecutiveSuccesses + left >= cfg.successThreshold
    ensures GenuineRun(services, more)
    ensures var s := Exec(cfg, services, more);
            && s.pending == [p, Pending(r.service, r.url, BecameHealthy)] && s.flags == Fresh(services).flags
            && StateOf(s.backends, r.url).healthy
    decreases left
  {
    more := events + [Record(r)];
    ExecNext(cfg, services, events, Record(r));
    SucceedsOrRecovers(cfg, services, Exec(cfg, services, events), r);
    if !StateOf(Exec(cfg, services, more).backends, r.url).healthy {
      more := RecoversPending(cfg, services, more, r, p, left - 1);
    }
  }

  /** The recovery applied before the failure leaves the flag of a healthy server down. */
  lemma SwappedSteps(cfg: Config, services: Services, s: State, v: nat, url: string)
    requires Formed(services, s) && v < |services| && url in services[v] && IsHealthy(s.backends, url)
    requires s.pending == [Pending(v, url, BecameUnhealthy), Pending(v, url, BecameHealthy)]
    ensures var t := Step(cfg, services, Step(cfg, services, s, Apply(1)), Apply(0));
            t.pending == [] && !Agrees(services, t)
  {
    var x := IndexOf(services[v], url);
    assert x < |services[v]|;
    var m := Step(cfg, services, s, Apply(1));
    assert m.pending == [Pending(v, url, BecameUnhealthy)];
    var t := Step(cfg, services, m, Apply(0));
    assert t.pending == [] && !t.flags[v][x] && IsHealthy(t.backends, services[v][x]);
  }

  /** For every server of every configuration that can trip, a failure and a recovery whose changes are
      applied the other way round leave its flag down for good while its verdict is healthy. */
  lemma SwappedFallsOut(cfg: Config, services: Services, v: nat, i: nat) returns (events: seq<Event>)
    requires CanTrip(cfg) && v < |services| && i < |services[v]|
    ensures Settled(cfg, services, events) && !Agrees(services, Exec(cfg, services, events))
  {
    var url := services[v][i];
    var status, elapsedMs := SomeFailure(cfg);
    var good := NotIn(cfg.failureCodes);
    var fail, pass := Response(v, url, status, elapsedMs, 0), Response(v, url, good, 0, 0);
    var p := Pending(v, url, BecameUnhealthy);
    events := TripsPending(cfg, services, [], fail, cfg.failureThreshold);
    events := RecoversPending(cfg, services, events, pass, p, cfg.successThreshold);
    ExecNext(cfg, services, events, Apply(1));
    ExecNext(cfg, services, events + [Apply(1)], Apply(0));
    SwappedSteps(cfg, services, Exec(cfg, services, events), v, url);
    events := events + [Apply(1)] + [Apply(0)];
  }

  /** Without that order the flags can be trusted only when there is nothing to flag: when nothing is
      pending they show the verdicts in every run exactly when nothing can trip or there is no server. */
  lemma FollowsInAnyOrderExactly(cfg: Config, services: Services)
    ensures FollowsInAnyOrder(cfg, services)
       <==> !CanTrip(cfg) || forall v :: 0 <= v < |services| ==> services[v] == []
  {
    if !CanTrip(cfg) {
      forall events
        ensures Agrees(services, Exec(cfg, services, events))
      {
        AlwaysQuiet(cfg, services, events);
        QuietAgrees(services, Exec(cfg, services, events));
      }
    } else if v :| 0 <= v < |services| && services[v] != [] {
      var events := SwappedFallsOut(cfg, services, v, 0);
      assert Settled(cfg, services, events) && !Agrees(services, Exec(cfg, services, events));
    }
  }
}
