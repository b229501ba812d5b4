/** The lease kept in the shared store and the scripts that change it in one atomic step. Times are
    milliseconds; a key set with an expiry vanishes when the expiry is reached. */
module Leases {
  import opened Wrappers

  type NodeId = string

  datatype Lease = Free | Held(holder: NodeId, expires: nat)

  /** What the acquire script answers; `Rejected` is the store refusing a zero expiry. */
  datatype Answer = Granted | Refused | Rejected

  function Holder(lease: Lease, now: nat): Option<NodeId> {
    if lease.Held? && now < lease.expires then Some(lease.holder) else None
  }

  /** The store keeps whole seconds of the configured time to live. */
  function Seconds(ttl: nat): nat {
    ttl / 1000
  }

  /** How long a granted lease lasts. */
  function Span(ttl: nat): nat {
    Seconds(ttl) * 1000
  }

  /** May `node` take or renew the lease now? */
  predicate Open(lease: Lease, node: NodeId, now: nat) {
    Holder(lease, now) == None || Holder(lease, now) == Some(node)
  }

  function Acquired(lease: Lease, node: NodeId, ttl: nat, now: nat): (Lease, Answer) {
    if !Open(lease, node, now) then (lease, Refused)
    else if Seconds(ttl) == 0 then (lease, Rejected)
    else (Held(node, now + Span(ttl)), Granted)
  }

  function Released(lease: Lease, node: NodeId, now: nat): Lease {
    if Holder(lease, now) == Some(node) then Free else lease
  }

  /** The leader key in the store. Each script runs as one step. */
  class LeaderKey {
    var lease: Lease

    constructor ()
      ensures lease == Free
    {
      lease := Free;
    }

    /** The holder, if any: the only node whose acquire is not refused. */
    method Get(now: nat) returns (current: Option<NodeId>)
      ensures current == Holder(lease, now)
      ensures forall node, ttl ::
                Acquired(lease, node, ttl, now).1 == Refused <==> current != None && current != Some(node)
    {
      current := if lease.Held? && lease.expires > now then Some(lease.holder) else None;
    }

    method AcquireScript(node: NodeId, ttl: nat, now: nat) returns (answer: Answer)
      modifies this
      ensures (lease, answer) == Acquired(old(lease), node, ttl, now)
      ensures answer == Granted <==> Seconds(ttl) > 0 && Open(old(lease), node, now)
      ensures answer == Granted ==> Holder(lease, now) == Some(node)
      ensures answer != Granted ==> lease == old(lease)
    {
      var current := Get(now);
      if current == None || current == Some(node) {
        var seconds := ttl / 1000;
        if seconds == 0 {
          return Rejected;
        }
        lease := Held(node, now + seconds * 1000);
        return Granted;
      } else {
        return Refused;
      }
    }

    method ReleaseScript(node: NodeId, now: nat) returns (released: bool)
      modifies this
      ensures lease == Released(old(lease), node, now)
      ensures Holder(lease, now) != Some(node)
      ensures released <==> Holder(old(lease), now) == Some(node)
    {
      var current := Get(now);
      released := current == Some(node);
      if released {
        lease := Free;
      }
    }
  }
}

/** Leader election as a protocol: any number of nodes run the election loop against one lease, with
    requests and replies delayed, lost or executed late, and nodes joining and shutting down. */
module LeaderElection {
  import opened Wrappers
  import opened Leases

  /** What the store client makes of the script's answer. */
  function ReplyOf(answer: Answer): Result<bool, string> {
    match answer
    case Granted => Ok(true)
    case Refused => Ok(false)
    case Rejected => Err("invalid expire time")
  }

  /** The leader flag after one completed election step. */
  predicate FlagAfter(reply: Result<bool, string>) {
    reply == Ok(true)
  }

  /** A node's own view of the election. */
  class ClusterManager {
    const nodeId: NodeId
    var isLeader: bool

    constructor (id: NodeId)
      ensures nodeId == id && !isLeader
    {
      nodeId := id;
      isLeader := false;
    }

    /** One completed tick of the election loop; `changed` is what the node logs. */
    method OnReply(reply: Result<bool, string>) returns (changed: bool)
      modifies this
      ensures isLeader == FlagAfter(reply)
      ensures changed ==> isLeader != old(isLeader)
      ensures reply.Ok? && isLeader != old(isLeader) ==> changed
    {
      match reply
      case Ok(acquired) =>
        changed := acquired != isLeader;
        isLeader := acquired;
      case Err(_) =>
        changed := false;
        isLeader := false;
    }

    /** Leaving releases the lease if this node believes it leads; the flag itself stays. */
    method Shutdown(store: LeaderKey, now: nat)
      modifies store
      ensures isLeader == old(isLeader)
      ensures store.lease == if isLeader then Released(old(store.lease), nodeId, now) else old(store.lease)
    {
      if isLeader {
        var _ := store.ReleaseScript(nodeId, now);
      }
    }
  }

  /** Where a node's election loop is: between ticks, or with a request under way. */
  datatype Phase = Waiting | Sent | Answered(answer: Answer, at: nat)

  /** `grantedAt` is when the store granted the lease behind a raised leader flag. */
  datatype Node = Node(isLeader: bool, grantedAt: nat, live: bool, phase: Phase, sentAt: nat, nextTick: nat)

  /** `leaving` holds the release requests, of nodes that were shut down, that have not run yet. */
  datatype State = State(now: nat, lease: Lease, nodes: map<NodeId, Node>, leaving: multiset<NodeId>)

  datatype Event =
    | Advance(time: nat)
    | Join(id: NodeId)      // a process starts, perhaps under the name of one that has ended
    | Tick(id: NodeId)      // the interval timer fires and the acquire request goes out
    | Execute(id: NodeId)   // the store runs the request
    | Deliver(id: NodeId)   // the reply sets the flag
    | Fail(id: NodeId)      // the request ends in an error
    | Stray(id: NodeId)     // the store runs an acquire whose sender no longer waits for it
    | Shutdown(id: NodeId)
    | Crash(id: NodeId)     // the process ends without releasing anything
    | Release(id: NodeId)   // the release script of a node that was shut down

  function Init(): State {
    State(0, Free, map[], multiset{})
  }

  predicate Enabled(s: State, e: Event) {
    match e
    case Advance(t) => s.now <= t
    case Join(n) => n in s.nodes ==> !s.nodes[n].live
    case Tick(n) => n in s.nodes && s.nodes[n].live && s.nodes[n].phase.Waiting? && s.nodes[n].nextTick <= s.now
    case Execute(n) => n in s.nodes && s.nodes[n].live && s.nodes[n].phase.Sent?
    case Deliver(n) => n in s.nodes && s.nodes[n].live && s.nodes[n].phase.Answered?
    case Fail(n) => n in s.nodes && s.nodes[n].live && !s.nodes[n].phase.Waiting?
    case Stray(n) => true
    case Shutdown(n) => n in s.nodes && s.nodes[n].live
    case Crash(n) => n in s.nodes && s.nodes[n].live
    case Release(n) => n in s.leaving
  }

  /** One event; events that are not enabled change nothing. */
  function Step(ttl: nat, s: State, e: Event): State {
    if !Enabled(s, e) then s else
    match e
    case Advance(t) => s.(now := t)
    case Join(n) => s.(nodes := s.nodes[n := Node(false, 0, true, Waiting, 0, s.now)])
    case Tick(n) =>
      var node := s.nodes[n];
      s.(nodes := s.nodes[n := node.(phase := Sent, sentAt := s.now, nextTick := node.nextTick + ttl / 3)])
    case Execute(n) =>
      var (lease, answer) := Acquired(s.lease, n, ttl, s.now);
      s.(lease := lease, nodes := s.nodes[n := s.nodes[n].(phase := Answered(answer, s.now))])
    case Deliver(n) =>
      var node := s.nodes[n];
      s.(nodes := s.nodes[n := node.(isLeader := FlagAfter(ReplyOf(node.phase.answer)),
                                     grantedAt := node.phase.at, phase := Waiting)])
    case Fail(n) => s.(nodes := s.nodes[n := s.nodes[n].(isLeader := FlagAfter(Err("unreachable")), phase := Waiting)])
    case Stray(n) => s.(lease := Acquired(s.lease, n, ttl, s.now).0)
    case Shutdown(n) =>
      s.(nodes := s.nodes[n := s.nodes[n].(live := false)],
         leaving := if s.nodes[n].isLeader then s.leaving + multiset{n} else s.leaving)
    case Crash(n) => s.(nodes := s.nodes[n := s.nodes[n].(live := false)])
    case Release(n) => s.(lease := Released(s.lease, n, s.now), leaving := s.leaving - multiset{n})
  }

  function Exec(ttl: nat, events: seq<Event>): State {
    if events == [] then Init()
    else Step(ttl, Exec(ttl, events[..|events| - 1]), events[|events| - 1])
  }

  /** A name is taken again only when no release under it is still to run. */
  ghost predicate OrderlyAt(s: State, e: Event) {
    e.Join? ==> e.id !in s.leaving
  }

  ghost predicate Orderly(ttl: nat, events: seq<Event>) {
    forall k :: 0 <= k < |events| ==> OrderlyAt(Exec(ttl, events[..k]), events[k])
  }

  predicate Leads(s: State, n: NodeId) {
    n in s.nodes && s.nodes[n].live && s.nodes[n].isLeader
  }

  /** At most one live node believes it leads. */
  ghost predicate MutualExclusion(s: State) {
    forall m, n :: Leads(s, m) && Leads(s, n) ==> m == n
  }

  /** Every leader is still within the time to live of its last grant: its next election step
      completes before that runs out. */
  ghost predicate Timely(ttl: nat, s: State) {
    forall n :: Leads(s, n) ==> s.now < s.nodes[n].grantedAt + ttl
  }

  /** The lease belongs to `n` at least until `until`. */
  predicate SecuredUntil(s: State, n: NodeId, until: nat) {
    s.lease.Held? && s.lease.holder == n && until <= s.lease.expires
  }

  /** A grant that a live node acts on, or is about to act on, still backs it for its whole span. */
  ghost predicate Backed(ttl: nat, s: State, n: NodeId)
    requires n in s.nodes
  {
    Secured(ttl, s, n) && Grounded(s, n)
  }

  ghost predicate Secured(ttl: nat, s: State, n: NodeId)
    requires n in s.nodes
  {
    var node := s.nodes[n];
    && (node.live && node.isLeader && s.now < node.grantedAt + Span(ttl) ==>
          SecuredUntil(s, n, node.grantedAt + Span(ttl)))
    && (node.live && node.phase.Answered? && node.phase.answer == Granted && s.now < node.phase.at + Span(ttl) ==>
          SecuredUntil(s, n, node.phase.at + Span(ttl)))
  }

  /** Grants lie in the past, and no release can hit a live node. */
  ghost predicate Grounded(s: State, n: NodeId)
    requires n in s.nodes
  {
    var node := s.nodes[n];
    && (node.isLeader ==> node.grantedAt <= s.now)
    && (node.phase.Answered? ==> node.phase.at <= s.now)
    && (node.live ==> n !in s.leaving)
  }

  lemma StepKeepsGrounded(ttl: nat, s: State, e: Event, n: NodeId)
    requires n in s.nodes ==> Grounded(s, n)
    requires n in s.leaving ==> n in s.nodes
    requires OrderlyAt(s, e) && n in Step(ttl, s, e).nodes
    ensures Grounded(Step(ttl, s, e), n)
  {
  }

  lemma StepKeepsSecured(ttl: nat, s: State, e: Event, n: NodeId)
    requires n in s.nodes ==> Secured(ttl, s, n) && Grounded(s, n)
    requires n in Step(ttl, s, e).nodes
    ensures Secured(ttl, Step(ttl, s, e), n)
  {
  }

  lemma StepKeepsBacked(ttl: nat, s: State, e: Event, n: NodeId)
    requires n in s.nodes ==> Backed(ttl, s, n)
    requires n in s.leaving ==> n in s.nodes
    requires OrderlyAt(s, e) && n in Step(ttl, s, e).nodes
    ensures Backed(ttl, Step(ttl, s, e), n)
  {
    StepKeepsGrounded(ttl, s, e, n);
    StepKeepsSecured(ttl, s, e, n);
  }

  lemma {:induction false} LeaversWereHere(ttl: nat, events: seq<Event>)
    ensures forall m :: m in Exec(ttl, events).leaving ==> m in Exec(ttl, events).nodes
  {
    if events == [] {
    } else {
      LeaversWereHere(ttl, events[..|events| - 1]);
    }
  }

  lemma OrderlyPrefix(ttl: nat, events: seq<Event>)
    requires Orderly(ttl, events) && events != []
    ensures var k := |events| - 1; Orderly(ttl, events[..k]) && OrderlyAt(Exec(ttl, events[..k]), events[k])
  {
    var before := events[..|events| - 1];
    forall k | 0 <= k < |before|
      ensures OrderlyAt(Exec(ttl, before[..k]), before[k])
    {
      assert before[..k] == events[..k];
    }
  }

  lemma {:induction false} AlwaysBacked(ttl: nat, events: seq<Event>, n: NodeId)
    requires Orderly(ttl, events) && n in Exec(ttl, events).nodes
    ensures Backed(ttl, Exec(ttl, events), n)
  {
    if events == [] {
    } else {
      var before := events[..|events| - 1];
      OrderlyPrefix(ttl, events);
      LeaversWereHere(ttl, before);
      if n in Exec(ttl, before).nodes {
        AlwaysBacked(ttl, before, n);
      }
      StepKeepsBacked(ttl, Exec(ttl, before), events[|events| - 1], n);
    }
  }

  /** In every state of every run, two live leaders that are both within the span the store keeps
      for their last grant are one and the same node. */
  lemma OneLeaderPerSpan(ttl: nat, events: seq<Event>, m: NodeId, n: NodeId)
    requires Orderly(ttl, events)
    requires var s := Exec(ttl, events);
             && Leads(s, m) && s.now < s.nodes[m].grantedAt + Span(ttl)
             && Leads(s, n) && s.now < s.nodes[n].grantedAt + Span(ttl)
    ensures m == n
  {
    AlwaysBacked(ttl, events, m);
    AlwaysBacked(ttl, events, n);
  }

  // ---- Somebody leads again ----

  lemma StepEndsInTime(ttl: nat, s: State, e: Event)
    requires s.lease.Held? ==> s.lease.expires <= s.now + Span(ttl)
    ensures var r := Step(ttl, s, e); r.lease.Held? ==> r.lease.expires <= r.now + Span(ttl)
  {
  }

  /** No lease outlasts the span of a grant made now. */
  lemma {:induction false} LeaseEndsInTime(ttl: nat, events: seq<Event>)
    ensures var s := Exec(ttl, events); s.lease.Held? ==> s.lease.expires <= s.now + Span(ttl)
  {
    if events == [] {
    } else {
      LeaseEndsInTime(ttl, events[..|events| - 1]);
      StepEndsInTime(ttl, Exec(ttl, events[..|events| - 1]), events[|events| - 1]);
    }
  }

  /** A live node between ticks whose timer is due. */
  predicate Due(s: State, n: NodeId) {
    n in s.nodes && s.nodes[n].live && s.nodes[n].phase.Waiting? && s.nodes[n].nextTick <= s.now
  }

  /** One turn of a node's election loop. */
  function Turn(n: NodeId): seq<Event> {
    [Tick(n), Execute(n), Deliver(n)]
  }

  lemma TurnSteps(ttl: nat, s: State, n: NodeId)
    requires Seconds(ttl) > 0 && Due(s, n) && Open(s.lease, n, s.now)
    ensures var r := Step(ttl, Step(ttl, Step(ttl, s, Tick(n)), Execute(n)), Deliver(n));
            && Leads(r, n) && Holder(r.lease, r.now) == Some(n) && r.now == s.now
            && forall m :: m != n ==> (Leads(r, m) <==> Leads(s, m))
  {
  }

  /** A node whose turn comes when nobody else holds the lease leads after it. */
  lemma TurnLeads(ttl: nat, xs: seq<Event>, n: NodeId)
    requires Seconds(ttl) > 0 && Due(Exec(ttl, xs), n) && Open(Exec(ttl, xs).lease, n, Exec(ttl, xs).now)
    ensures var s, r := Exec(ttl, xs), Exec(ttl, xs + Turn(n));
            && Leads(r, n) && Holder(r.lease, r.now) == Some(n) && r.now == s.now
            && forall m :: m != n ==> (Leads(r, m) <==> Leads(s, m))
  {
    TurnSteps(ttl, Exec(ttl, xs), n);
    ExecNext(ttl, xs, Tick(n));
    ExecNext(ttl, xs + [Tick(n)], Execute(n));
    ExecNext(ttl, xs + [Tick(n)] + [Execute(n)], Deliver(n));
    assert xs + Turn(n) == xs + [Tick(n)] + [Execute(n)] + [Deliver(n)];
  }

  /** Failover: after any run, when a node crashes, any other whose turn comes a span or more later leads,
      and the crashed one does not. */
  lemma FailsOver(ttl: nat, events: seq<Event>, m: NodeId, n: NodeId, t: nat)
    requires Seconds(ttl) > 0 && m != n
    requires var s := Exec(ttl, events);
             && m in s.nodes && s.nodes[m].live
             && n in s.nodes && s.nodes[n].live && s.nodes[n].phase.Waiting?
             && s.now + Span(ttl) <= t && s.nodes[n].nextTick <= t
    ensures var r := Exec(ttl, events + [Crash(m)] + [Advance(t)] + Turn(n)); r.now == t && Leads(r, n) && !Leads(r, m)
  {
    LeaseEndsInTime(ttl, events);
    ExecNext(ttl, events, Crash(m));
    ExecNext(ttl, events + [Crash(m)], Advance(t));
    TurnLeads(ttl, events + [Crash(m)] + [Advance(t)], n);
  }

  /** Handover: after any run, when a leader that holds the lease is shut down and its release has run,
      any other whose turn has come leads at once. */
  lemma HandsOver(ttl: nat, events: seq<Event>, m: NodeId, n: NodeId)
    requires Seconds(ttl) > 0 && m != n
    requires var s := Exec(ttl, events); Leads(s, m) && Holder(s.lease, s.now) == Some(m) && Due(s, n)
    ensures var s, r := Exec(ttl, events), Exec(ttl, events + [Shutdown(m)] + [Release(m)] + Turn(n));
            r.now == s.now && Leads(r, n) && !Leads(r, m)
  {
    ExecNext(ttl, events, Shutdown(m));
    ExecNext(ttl, events + [Shutdown(m)], Release(m));
    TurnLeads(ttl, events + [Shutdown(m)] + [Release(m)], n);
  }

  // ---- Exactly which times to live are safe ----

  /** With a time to live under one second the store rejects every grant, so nobody ever leads. */
  ghost predicate Leaderless(s: State) {
    && s.lease == Free
    && forall n :: n in s.nodes ==> !s.nodes[n].isLeader && !(s.nodes[n].phase.Answered? && s.nodes[n].phase.answer == Granted)
  }

  lemma StepKeepsLeaderless(ttl: nat, s: State, e: Event)
    requires Seconds(ttl) == 0 && Leaderless(s)
    ensures Leaderless(Step(ttl, s, e))
  {
  }

  lemma {:induction false} NobodyLeads(ttl: nat, events: seq<Event>)
    requires Seconds(ttl) == 0
    ensures Leaderless(Exec(ttl, events))
  {
    if events == [] {
    } else {
      NobodyLeads(ttl, events[..|events| - 1]);
      StepKeepsLeaderless(ttl, Exec(ttl, events[..|events| - 1]), events[|events| - 1]);
    }
  }

  predicate SafeTtl(ttl: nat) {
    ttl < 1000 || ttl % 1000 == 0
  }

  /** Every timely state of every orderly run has at most one leader. */
  ghost predicate AlwaysExclusive(ttl: nat) {
    forall events :: Orderly(ttl, events) && Timely(ttl, Exec(ttl, events)) ==> MutualExclusion(Exec(ttl, events))
  }

  lemma SafeTtlExcludes(ttl: nat, events: seq<Event>)
    requires SafeTtl(ttl) && Orderly(ttl, events) && Timely(ttl, Exec(ttl, events))
    ensures MutualExclusion(Exec(ttl, events))
  {
    var s := Exec(ttl, events);
    if ttl < 1000 {
      NobodyLeads(ttl, events);
    } else {
      assert Span(ttl) == ttl;
      forall m, n | Leads(s, m) && Leads(s, n) ensures m == n {
        OneLeaderPerSpan(ttl, events, m, n);
      }
    }
  }

  lemma Then(ttl: nat, events: seq<Event>, k: nat)
    requires k < |events|
    ensures Exec(ttl, events[..k + 1]) == Step(ttl, Exec(ttl, events[..k]), events[k])
  {
    assert events[..k + 1][..k] == events[..k];
  }

  /** Node "a" becomes leader at time zero. */
  function Rise(): seq<Event> {
    [Join("a"), Tick("a"), Execute("a"), Deliver("a")]
  }

  /** Node "b" arrives when the store has just forgotten the first lease, and becomes leader too. */
  function Usurp(): seq<Event> {
    [Join("b"), Tick("b"), Execute("b"), Deliver("b")]
  }

  lemma AfterRise(ttl: nat)
    requires Seconds(ttl) > 0
    ensures Exec(ttl, Rise()) == State(0, Held("a", Span(ttl)), map["a" := Node(true, 0, true, Waiting, 0, ttl / 3)], multiset{})
  {
    var o := Rise();
    Then(ttl, o, 0);
    assert Exec(ttl, o[..1]) == State(0, Free, map["a" := Node(false, 0, true, Waiting, 0, 0)], multiset{});
    Then(ttl, o, 1);
    assert Exec(ttl, o[..2]) == State(0, Free, map["a" := Node(false, 0, true, Sent, 0, ttl / 3)], multiset{});
    Then(ttl, o, 2);
    Then(ttl, o, 3);
    assert o[..4] == o;
  }

  lemma ExecNext(ttl: nat, xs: seq<Event>, e: Event)
    ensures Exec(ttl, xs + [e]) == Step(ttl, Exec(ttl, xs), e)
  {
    assert (xs + [e])[..|xs|] == xs;
  }

  /** From any state in which the lease has run out, a node that joins can lead at once. */
  lemma UsurpSteps(ttl: nat, s: State)
    requires Seconds(ttl) > 0 && "b" !in s.nodes && Holder(s.lease, s.now) == None
    ensures var r := Step(ttl, Step(ttl, Step(ttl, Step(ttl, s, Join("b")), Tick("b")), Execute("b")), Deliver("b"));
            && r.now == s.now && r.leaving == s.leaving
            && r.nodes == s.nodes["b" := Node(true, s.now, true, Waiting, s.now, s.now + ttl / 3)]
  {
  }

  lemma AfterUsurp(ttl: nat, xs: seq<Event>)
    requires Seconds(ttl) > 0 && "b" !in Exec(ttl, xs).nodes
    requires Holder(Exec(ttl, xs).lease, Exec(ttl, xs).now) == None
    ensures var s, r := Exec(ttl, xs), Exec(ttl, xs + Usurp());
            && r.now == s.now && r.leaving == s.leaving
            && r.nodes == s.nodes["b" := Node(true, s.now, true, Waiting, s.now, s.now + ttl / 3)]
  {
    UsurpSteps(ttl, Exec(ttl, xs));
    var ys := xs + [Join("b")];
    var zs := ys + [Tick("b")];
    ExecNext(ttl, xs, Join("b"));
    ExecNext(ttl, ys, Tick("b"));
    ExecNext(ttl, zs, Execute("b"));
    ExecNext(ttl, zs + [Execute("b")], Deliver("b"));
    assert xs + Usurp() == zs + [Execute("b")] + [Deliver("b")];
  }

  /** The store forgets "a" while "a" is still entitled to lead. */
  lemma Overlap(ttl: nat) returns (events: seq<Event>)
    requires !SafeTtl(ttl)
    ensures Orderly(ttl, events) && Timely(ttl, Exec(ttl, events)) && !MutualExclusion(Exec(ttl, events))
  {
    var xs := Rise() + [Advance(Span(ttl))];
    AfterRise(ttl);
    Then(ttl, xs, 4);
    assert xs[..5] == xs && xs[..4] == Rise();
    AfterUsurp(ttl, xs);
    events := xs + Usurp();
    StayingUsurp(xs);
    NobodyLeaves(ttl, events);
    assert Leads(Exec(ttl, events), "a") && Leads(Exec(ttl, events), "b");
  }

  /** Nobody is shut down. */
  predicate Staying(events: seq<Event>) {
    forall k :: 0 <= k < |events| ==> !events[k].Shutdown?
  }

  lemma StayingUsurp(xs: seq<Event>)
    requires Staying(xs)
    ensures Staying(xs + Usurp())
  {
  }

  lemma {:induction false} NoneLeaving(ttl: nat, events: seq<Event>)
    requires Staying(events)
    ensures Exec(ttl, events).leaving == multiset{}
  {
    if events == [] {
    } else {
      NoneLeaving(ttl, events[..|events| - 1]);
    }
  }

  /** A run in which nobody is shut down is orderly. */
  lemma NobodyLeaves(ttl: nat, events: seq<Event>)
    requires Staying(events)
    ensures Orderly(ttl, events)
  {
    forall k | 0 <= k < |events|
      ensures OrderlyAt(Exec(ttl, events[..k]), events[k])
    {
      NoneLeaving(ttl, events[..k]);
    }
  }

  /** Timely elections are exclusive in every orderly run exactly when the time to live is a whole number of
      seconds, or so short that the store never grants it. */
  lemma ExclusiveExactlyWhenSafe(ttl: nat)
    ensures AlwaysExclusive(ttl) <==> SafeTtl(ttl)
  {
    if SafeTtl(ttl) {
      forall events | Orderly(ttl, events) && Timely(ttl, Exec(ttl, events)) ensures MutualExclusion(Exec(ttl, events)) {
        SafeTtlExcludes(ttl, events);
      }
    } else {
      var events := Overlap(ttl);
      assert !(Orderly(ttl, events) && Timely(ttl, Exec(ttl, events)) ==> MutualExclusion(Exec(ttl, events)));
    }
  }

  // ---- Prompt runs are timely ----

  /** Time never passes a due tick, nor the moment a third of the time to live after a request. */
  ghost predicate PromptAt(ttl: nat, s: State, e: Event) {
    e.Advance? ==>
      forall n :: n in s.nodes && s.nodes[n].live ==>
        || e.time <= s.now
        || e.time <= if s.nodes[n].phase.Waiting? then s.nodes[n].nextTick else s.nodes[n].sentAt + ttl / 3
  }

  ghost predicate Prompt(ttl: nat, events: seq<Event>) {
    forall k :: 0 <= k < |events| ==> PromptAt(ttl, Exec(ttl, events[..k]), events[k])
  }

  /** A node on schedule: its last grant is at most one interval before its next request, which in
      turn takes at most one more interval. */
  ghost predicate OnSchedule(ttl: nat, s: State, n: NodeId)
    requires n in s.nodes
  {
    var node, third := s.nodes[n], ttl / 3;
    node.live ==>
      && (!node.phase.Waiting? ==> node.sentAt <= s.now <= node.sentAt + third && node.nextTick <= node.sentAt + third)
      && (node.phase.Answered? ==> node.sentAt <= node.phase.at)
      && (node.isLeader && node.phase.Waiting? ==>
            s.now <= node.grantedAt + third && node.nextTick <= node.grantedAt + third)
      && (node.isLeader && !node.phase.Waiting? ==> node.sentAt <= node.grantedAt + third)
  }

  lemma StepKeepsSchedule(ttl: nat, s: State, e: Event, n: NodeId)
    requires forall m :: m in s.nodes ==> OnSchedule(ttl, s, m)
    requires PromptAt(ttl, s, e) && n in Step(ttl, s, e).nodes
    ensures OnSchedule(ttl, Step(ttl, s, e), n)
  {
    if n in s.nodes {
      assert OnSchedule(ttl, s, n);
    }
  }

  lemma {:induction false} AlwaysOnSchedule(ttl: nat, events: seq<Event>, n: NodeId)
    requires Prompt(ttl, events) && n in Exec(ttl, events).nodes
    ensures OnSchedule(ttl, Exec(ttl, events), n)
  {
    if events == [] {
    } else {
      var last := |events| - 1;
      var before := events[..last];
      assert forall k :: 0 <= k < last ==> before[..k] == events[..k];
      forall m | m in Exec(ttl, before).nodes ensures OnSchedule(ttl, Exec(ttl, before), m) {
        AlwaysOnSchedule(ttl, before, m);
      }
      assert PromptAt(ttl, Exec(ttl, events[..last]), events[last]);
      StepKeepsSchedule(ttl, Exec(ttl, before), events[last], n);
    }
  }

  /** Two election intervals end before the store forgets the lease; true of every time to live from
      three seconds on and of every whole number of seconds. */
  predicate IntervalsFit(ttl: nat) {
    Seconds(ttl) == 0 || 2 * (ttl / 3) < Span(ttl)
  }

  lemma UsualTtlsFit(ttl: nat)
    requires SafeTtl(ttl) || ttl >= 3000
    ensures IntervalsFit(ttl)
  {
  }

  lemma PromptExcludes(ttl: nat, events: seq<Event>)
    requires IntervalsFit(ttl) && Orderly(ttl, events) && Prompt(ttl, events)
    ensures MutualExclusion(Exec(ttl, events))
  {
    var s := Exec(ttl, events);
    if Seconds(ttl) == 0 {
      NobodyLeads(ttl, events);
    } else {
      forall m, n | Leads(s, m) && Leads(s, n) ensures m == n {
        AlwaysOnSchedule(ttl, events, m);
        AlwaysOnSchedule(ttl, events, n);
        OneLeaderPerSpan(ttl, events, m, n);
      }
    }
  }

  lemma PromptUsurp(ttl: nat, xs: seq<Event>)
    requires Prompt(ttl, xs)
    ensures Prompt(ttl, xs + Usurp())
  {
    var ys := xs + Usurp();
    forall k | 0 <= k < |ys| ensures PromptAt(ttl, Exec(ttl, ys[..k]), ys[k]) {
      if k < |xs| {
        assert ys[..k] == xs[..k];
      }
    }
  }

  /** The renewal of "a" is under way, on schedule, when the store forgets it. */
  function Renewal(ttl: nat): seq<Event> {
    Rise() + [Advance(ttl / 3), Tick("a"), Advance(Span(ttl))]
  }

  lemma RenewalStates(ttl: nat)
    requires !IntervalsFit(ttl)
    ensures var xs, third, held := Renewal(ttl), ttl / 3, Held("a", Span(ttl));
            && xs[..4] == Rise()
            && Exec(ttl, xs[..6]) == State(third, held, map["a" := Node(true, 0, true, Sent, third, third + third)], multiset{})
            && Exec(ttl, xs) == Exec(ttl, xs[..6]).(now := Span(ttl))
  {
    var xs := Renewal(ttl);
    AfterRise(ttl);
    assert xs[..4] == Rise() && xs[..7] == xs;
    Then(ttl, xs, 4);
    Then(ttl, xs, 5);
    Then(ttl, xs, 6);
    RenewSteps(ttl, Exec(ttl, Rise()));
  }

  lemma RenewSteps(ttl: nat, s: State)
    requires !IntervalsFit(ttl)
    requires s == State(0, Held("a", Span(ttl)), map["a" := Node(true, 0, true, Waiting, 0, ttl / 3)], multiset{})
    ensures var third := ttl / 3;
            var r := Step(ttl, Step(ttl, s, Advance(third)), Tick("a"));
            && r == State(third, s.lease, map["a" := Node(true, 0, true, Sent, third, third + third)], multiset{})
            && Step(ttl, r, Advance(Span(ttl))) == r.(now := Span(ttl))
  {
  }

  lemma RenewalStays(ttl: nat)
    ensures Staying(Renewal(ttl))
  {
    var xs := Renewal(ttl);
    forall k | 0 <= k < |xs|
      ensures !xs[k].Shutdown?
    {
      assert k < 4 ==> xs[k] == Rise()[k];
    }
  }

  lemma RenewalIsPrompt(ttl: nat)
    requires !IntervalsFit(ttl)
    ensures Prompt(ttl, Renewal(ttl))
  {
    var xs := Renewal(ttl);
    AfterRise(ttl);
    RenewalStates(ttl);
    forall k | 0 <= k < |xs| ensures PromptAt(ttl, Exec(ttl, xs[..k]), xs[k]) {
      assert k != 4 && k != 6 ==> !xs[k].Advance?;
    }
  }

  lemma PromptOverlap(ttl: nat) returns (events: seq<Event>)
    requires !IntervalsFit(ttl)
    ensures Orderly(ttl, events) && Prompt(ttl, events) && !MutualExclusion(Exec(ttl, events))
  {
    var xs := Renewal(ttl);
    RenewalStates(ttl);
    RenewalIsPrompt(ttl);
    AfterUsurp(ttl, xs);
    PromptUsurp(ttl, xs);
    RenewalStays(ttl);
    events := xs + Usurp();
    StayingUsurp(xs);
    NobodyLeaves(ttl, events);
    assert Leads(Exec(ttl, events), "a") && Leads(Exec(ttl, events), "b");
  }

  ghost predicate PromptlyExclusive(ttl: nat) {
    forall events :: Orderly(ttl, events) && Prompt(ttl, events) ==> MutualExclusion(Exec(ttl, events))
  }

  /** Renewing every third of the time to live is exactly enough when two such intervals end before
      the store forgets: then, with ticks on time and round trips of at most an interval, no two
      live nodes ever lead at once, and otherwise some such run has two leaders. */
  lemma PromptExclusiveExactlyWhenIntervalsFit(ttl: nat)
    ensures PromptlyExclusive(ttl) <==> IntervalsFit(ttl)
  {
    if IntervalsFit(ttl) {
      forall events | Orderly(ttl, events) && Prompt(ttl, events) ensures MutualExclusion(Exec(ttl, events)) {
        PromptExcludes(ttl, events);
      }
    } else {
      var events := PromptOverlap(ttl);
      assert !(Orderly(ttl, events) && Prompt(ttl, events) ==> MutualExclusion(Exec(ttl, events)));
    }
  }

  // ---- Names taken again too early ----

  /** "a" is shut down, starts again under its name, leads, and then the old release runs. */
  function Return(): seq<Event> {
    [Shutdown("a"), Join("a"), Tick("a"), Execute("a")]
  }

  lemma ReturnSteps(ttl: nat, s: State)
    requires Seconds(ttl) > 0
    requires s == State(0, Held("a", Span(ttl)), map["a" := Node(true, 0, true, Waiting, 0, ttl / 3)], multiset{})
    ensures var x := Step(ttl, Step(ttl, s, Shutdown("a")), Join("a"));
            x == State(0, s.lease, map["a" := Node(false, 0, true, Waiting, 0, 0)], multiset{"a"})
    ensures var x := State(0, s.lease, map["a" := Node(false, 0, true, Waiting, 0, 0)], multiset{"a"});
            var y := Step(ttl, Step(ttl, x, Tick("a")), Execute("a"));
            && y.now == 0 && y.lease == s.lease && y.leaving == multiset{"a"}
            && y.nodes == map["a" := Node(false, 0, true, Answered(Granted, 0), 0, ttl / 3)]
  {
  }

  lemma LateReleaseSteps(ttl: nat, y: State)
    requires y.now == 0 && y.leaving == multiset{"a"} && y.lease == Held("a", Span(ttl)) && Seconds(ttl) > 0
    requires y.nodes == map["a" := Node(false, 0, true, Answered(Granted, 0), 0, ttl / 3)]
    ensures var z := Step(ttl, Step(ttl, y, Deliver("a")), Release("a"));
            z == State(0, Free, map["a" := Node(true, 0, true, Waiting, 0, ttl / 3)], multiset{})
  {
  }

  lemma AfterReturn(ttl: nat)
    requires Seconds(ttl) > 0
    ensures var y := Exec(ttl, Rise() + Return());
            && y.now == 0 && y.lease == Held("a", Span(ttl)) && y.leaving == multiset{"a"}
            && y.nodes == map["a" := Node(false, 0, true, Answered(Granted, 0), 0, ttl / 3)]
  {
    AfterRise(ttl);
    ReturnSteps(ttl, Exec(ttl, Rise()));
    var xs := Rise() + [Shutdown("a")];
    var ys := xs + [Join("a")];
    ExecNext(ttl, Rise(), Shutdown("a"));
    ExecNext(ttl, xs, Join("a"));
    ExecNext(ttl, ys, Tick("a"));
    ExecNext(ttl, ys + [Tick("a")], Execute("a"));
    assert Rise() + Return() == ys + [Tick("a")] + [Execute("a")];
  }

  lemma AfterRelease(ttl: nat, xs: seq<Event>)
    requires Seconds(ttl) > 0 && xs == Rise() + Return()
    ensures Exec(ttl, xs + [Deliver("a")] + [Release("a")])
         == State(0, Free, map["a" := Node(true, 0, true, Waiting, 0, ttl / 3)], multiset{})
  {
    AfterReturn(ttl);
    LateReleaseSteps(ttl, Exec(ttl, xs));
    ExecNext(ttl, xs, Deliver("a"));
    ExecNext(ttl, xs + [Deliver("a")], Release("a"));
  }

  lemma PromptAtOnce(ttl: nat, events: seq<Event>)
    requires forall k :: 0 <= k < |events| ==> !events[k].Advance?
    ensures Prompt(ttl, events)
  {
  }

  /** The release of the process that was shut down frees the lease of the one that took its name: at
      the same instant another node leads as well. */
  lemma HastyReturn(ttl: nat) returns (events: seq<Event>)
    requires Seconds(ttl) > 0
    ensures Timely(ttl, Exec(ttl, events)) && Prompt(ttl, events) && !MutualExclusion(Exec(ttl, events))
  {
    var xs := Rise() + Return() + [Deliver("a")] + [Release("a")];
    AfterRelease(ttl, Rise() + Return());
    AfterUsurp(ttl, xs);
    events := xs + Usurp();
    PromptAtOnce(ttl, events);
    assert Leads(Exec(ttl, events), "a") && Leads(Exec(ttl, events), "b");
  }

  /** If names may be taken again while a release is still to run, then timely elections are exclusive in
      every run exactly when nobody can lead at all. */
  lemma NamesNeedOrder(ttl: nat)
    ensures (forall events :: Timely(ttl, Exec(ttl, events)) ==> MutualExclusion(Exec(ttl, events))) <==> ttl < 1000
  {
    if ttl < 1000 {
      forall events
        ensures MutualExclusion(Exec(ttl, events))
      {
        NobodyLeads(ttl, events);
      }
    } else {
      var events := HastyReturn(ttl);
      assert !(Timely(ttl, Exec(ttl, events)) ==> MutualExclusion(Exec(ttl, events)));
    }
  }
}
