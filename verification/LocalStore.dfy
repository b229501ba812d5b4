/** The in-memory store that stands in for the shared one on a single node: tables whose entries
    carry an expiry and linger, unseen, until they are overwritten or cleaned up. */
module LocalStores {
  import opened Wrappers
  import opened Leases

  datatype Entry = Entry(value: string, expiresAt: nat)

  type Table = map<string, Entry>

  /** The entries of a table that have not expired at `t`. */
  function Live(m: Table, t: nat): Table {
    map k | k in m && t < m[k].expiresAt :: m[k]
  }

  /** The entry a reader finds at `t`, if any. */
  function Seen(m: Table, k: string, t: nat): Option<Entry> {
    if k in m && m[k].expiresAt > t then Some(m[k]) else None
  }

  function Lookup(m: Table, k: string, t: nat): Option<string> {
    if k in m && m[k].expiresAt > t then Some(m[k].value) else None
  }

  /** From `now` on a reader finds `value` under `k` until `until`, and then nothing. */
  ghost predicate Stored(m: Table, k: string, value: string, now: nat, until: nat) {
    forall t: nat :: t >= now ==> Lookup(m, k, t) == if t < until then Some(value) else None
  }

  ghost predicate Gone(m: Table, k: string) {
    forall t: nat :: Lookup(m, k, t) == None
  }

  /** What readers find under every other key is as it was. */
  ghost predicate OthersKept(a: Table, b: Table, k: string) {
    forall j, t: nat :: j != k ==> Seen(a, j, t) == Seen(b, j, t)
  }

  /** Without a write, what is found now is all that can be found later. */
  ghost predicate OnlyFades(m: Table, k: string, found: Option<string>, now: nat) {
    forall t: nat :: t >= now ==> Lookup(m, k, t) == None || Lookup(m, k, t) == found
  }

  ghost predicate NoneExpired(m: Table, now: nat) {
    forall k :: k in m ==> now < m[k].expiresAt
  }

  datatype Store = Store(leaders: Table, sticky: Table, acme: Table)

  datatype Op =
    | LeaderAcquire(task: string, node: NodeId, ttl: nat)
    | LeaderRelease(task: string, node: NodeId)
    | LeaderGet(task: string)
    | StickySet(service: string, session: string, url: string, ttl: nat)
    | StickyGet(service: string, session: string)
    | StickyDelete(service: string, session: string)
    | ChallengeSet(token: string, auth: string, ttl: nat)
    | ChallengeGet(token: string)
    | ChallengeDelete(token: string)
    | Cleanup

  datatype Answer = Done | Acquisition(granted: bool) | Found(value: Option<string>) | Failed

  function StickyKey(service: string, session: string): string {
    service + ":" + session
  }

  /** One service's name is the other's, a colon and more. */
  predicate Nested(a: string, b: string) {
    a + ":" <= b || b + ":" <= a
  }

  lemma SessionsApart(service: string, s: string, t: string)
    ensures StickyKey(service, s) == StickyKey(service, t) <==> s == t
  {
    var a, b := StickyKey(service, s), StickyKey(service, t);
    assert a[|service| + 1..] == s && b[|service| + 1..] == t;
  }

  lemma ShorterIsNested(a: string, s: string, b: string, t: string)
    requires |a| < |b| && StickyKey(a, s) == StickyKey(b, t)
    ensures Nested(a, b)
  {
    var key, n := StickyKey(a, s), |a| + 1;
    assert key[..n] == a + ":";
    assert StickyKey(b, t)[..n] == b[..n];
  }

  lemma EqualLengths(a: string, s: string, b: string, t: string)
    requires |a| == |b| && StickyKey(a, s) == StickyKey(b, t)
    ensures a == b
  {
    assert StickyKey(a, s)[..|a|] == a && StickyKey(b, t)[..|b|] == b;
  }

  /** Sessions of two services can fall on one key exactly when one service's name is the other's, a
      colon and more; within one service they never do. */
  lemma ServicesShareKeysExactly(a: string, b: string)
    requires a != b
    ensures (exists s, t :: StickyKey(a, s) == StickyKey(b, t)) <==> Nested(a, b)
  {
    if s, t :| StickyKey(a, s) == StickyKey(b, t) {
      if |a| < |b| {
        ShorterIsNested(a, s, b, t);
      } else if |b| < |a| {
        ShorterIsNested(b, t, a, s);
      } else {
        EqualLengths(a, s, b, t);
      }
    }
    if a + ":" <= b {
      NestedShares(a, b);
    } else if b + ":" <= a {
      NestedShares(b, a);
    }
  }

  lemma NestedShares(a: string, b: string)
    requires a + ":" <= b
    ensures StickyKey(a, b[|a| + 1..] + ":") == StickyKey(b, "")
  {
    var rest := b[|a| + 1..];
    assert b == a + ":" + rest;
    assert a + ":" + (rest + ":") == a + ":" + rest + ":" + "";
  }

  /** The session is another one, of the same service or of one that shares no keys with it. */
  predicate OtherSession(service: string, session: string, service2: string, session2: string) {
    if service == service2 then session != session2 else !Nested(service, service2)
  }

  lemma OthersHaveOtherKeys(service: string, session: string, service2: string, session2: string)
    requires OtherSession(service, session, service2, session2)
    ensures StickyKey(service, session) != StickyKey(service2, session2)
  {
    if service == service2 {
      SessionsApart(service, session, session2);
    } else {
      ServicesShareKeysExactly(service, service2);
    }
  }

  /** What readers find of every other session is as it was. */
  ghost predicate OtherSessionsKept(a: Table, b: Table, service: string, session: string) {
    forall service2, session2, t: nat :: OtherSession(service, session, service2, session2) ==>
      Lookup(a, StickyKey(service2, session2), t) == Lookup(b, StickyKey(service2, session2), t)
  }

  lemma KeptForSessions(a: Table, b: Table, service: string, session: string)
    requires OthersKept(a, b, StickyKey(service, session))
    ensures OtherSessionsKept(a, b, service, session)
  {
    forall service2, session2, t: nat | OtherSession(service, session, service2, session2)
      ensures Lookup(a, StickyKey(service2, session2), t) == Lookup(b, StickyKey(service2, session2), t)
    {
      OthersHaveOtherKeys(service, session, service2, session2);
      assert Seen(a, StickyKey(service2, session2), t) == Seen(b, StickyKey(service2, session2), t);
    }
  }

  /** The store after one operation at `now`, with the operation's answer. */
  function Apply(s: Store, now: nat, op: Op): (Store, Answer) {
    match op
    case LeaderAcquire(task, node, ttl) =>
      if task in s.leaders && s.leaders[task].expiresAt > now && s.leaders[task].value != node
      then (s, Acquisition(false))
      else (s.(leaders := s.leaders[task := Entry(node, now + ttl)]), Acquisition(true))
    case LeaderRelease(task, node) =>
      if task in s.leaders && s.leaders[task].value == node
      then (s.(leaders := s.leaders - {task}), Done)
      else (s, Done)
    case LeaderGet(task) => (s, Found(Lookup(s.leaders, task, now)))
    case StickySet(service, session, url, ttl) =>
      (s.(sticky := s.sticky[StickyKey(service, session) := Entry(url, now + ttl)]), Done)
    case StickyGet(service, session) => (s, Found(Lookup(s.sticky, StickyKey(service, session), now)))
    case StickyDelete(service, session) => (s.(sticky := s.sticky - {StickyKey(service, session)}), Done)
    case ChallengeSet(token, auth, ttl) => (s.(acme := s.acme[token := Entry(auth, now + ttl)]), Done)
    case ChallengeGet(token) => (s, Found(Lookup(s.acme, token, now)))
    case ChallengeDelete(token) => (s.(acme := s.acme - {token}), Done)
    case Cleanup => (Store(Live(s.leaders, now), Live(s.sticky, now), Live(s.acme, now)), Done)
  }

  /** The store as its callers use it. */
  class LocalStore {
    var leaders: Table
    var sticky: Table
    var acme: Table

    constructor ()
      ensures Contents() == Store(map[], map[], map[])
    {
      leaders, sticky, acme := map[], map[], map[];
    }

    function Contents(): Store
      reads this
    {
      Store(leaders, sticky, acme)
    }

    method AcquireLeadership(task: string, node: NodeId, ttl: nat, now: nat) returns (granted: bool)
      modifies this`leaders
      ensures (Contents(), Acquisition(granted)) == Apply(old(Contents()), now, LeaderAcquire(task, node, ttl))
      ensures granted <==> Lookup(old(leaders), task, now) in {None, Some(node)}
    {
      if task in leaders {
        var entry := leaders[task];
        if entry.expiresAt > now && entry.value != node {
          return false;
        }
      }
      leaders := leaders[task := Entry(node, now + ttl)];
      return true;
    }

    method ReleaseLeadership(task: string, node: NodeId, now: nat)
      modifies this`leaders
      ensures Contents() == Apply(old(Contents()), now, LeaderRelease(task, node)).0
      ensures Lookup(leaders, task, now) != Some(node)
    {
      if task in leaders && leaders[task].value == node {
        leaders := leaders - {task};
      }
    }

    /** The answer says exactly who could take the lease now. */
    method FindLeader(task: string, now: nat) returns (leader: Option<string>)
      ensures Apply(Contents(), now, LeaderGet(task)) == (Contents(), Found(leader))
      ensures forall node, ttl :: Apply(Contents(), now, LeaderAcquire(task, node, ttl)).1
                               == Acquisition(leader == None || leader == Some(node))
    {
      leader := if task in leaders && leaders[task].expiresAt > now then Some(leaders[task].value) else None;
    }

    method FindSticky(service: string, session: string, now: nat) returns (url: Option<string>)
      ensures Apply(Contents(), now, StickyGet(service, session)) == (Contents(), Found(url))
      ensures OnlyFades(sticky, StickyKey(service, session), url, now)
    {
      var key := service + ":" + session;
      url := if key in sticky && sticky[key].expiresAt > now then Some(sticky[key].value) else None;
    }

    method FindChallenge(token: string, now: nat) returns (auth: Option<string>)
      ensures Apply(Contents(), now, ChallengeGet(token)) == (Contents(), Found(auth))
      ensures OnlyFades(acme, token, auth, now)
    {
      auth := if token in acme && acme[token].expiresAt > now then Some(acme[token].value) else None;
    }

    method SetSticky(service: string, session: string, url: string, ttl: nat, now: nat)
      modifies this`sticky
      ensures Contents() == Apply(old(Contents()), now, StickySet(service, session, url, ttl)).0
      ensures Stored(sticky, StickyKey(service, session), url, now, now + ttl)
      ensures OtherSessionsKept(old(sticky), sticky, service, session)
    {
      var key := service + ":" + session;
      sticky := sticky[key := Entry(url, now + ttl)];
      KeptForSessions(old(sticky), sticky, service, session);
    }

    method DeleteSticky(service: string, session: string, now: nat)
      modifies this`sticky
      ensures Contents() == Apply(old(Contents()), now, StickyDelete(service, session)).0
      ensures Gone(sticky, StickyKey(service, session))
      ensures OtherSessionsKept(old(sticky), sticky, service, session)
    {
      sticky := sticky - {service + ":" + session};
      KeptForSessions(old(sticky), sticky, service, session);
    }

    method SetChallenge(token: string, auth: string, ttl: nat, now: nat)
      modifies this`acme
      ensures Contents() == Apply(old(Contents()), now, ChallengeSet(token, auth, ttl)).0
      ensures Stored(acme, token, auth, now, now + ttl) && OthersKept(old(acme), acme, token)
    {
      acme := acme[token := Entry(auth, now + ttl)];
    }

    method DeleteChallenge(token: string, now: nat)
      modifies this`acme
      ensures Contents() == Apply(old(Contents()), now, ChallengeDelete(token)).0
      ensures Gone(acme, token) && OthersKept(old(acme), acme, token)
    {
      acme := acme - {token};
    }

    method CleanUp(now: nat)
      modifies this
      ensures Contents() == Apply(old(Contents()), now, Cleanup).0
      ensures Alike(old(Contents()), Contents(), now)
      ensures NoneExpired(leaders, now) && NoneExpired(sticky, now) && NoneExpired(acme, now)
    {
      sticky := Live(sticky, now);
      acme := Live(acme, now);
      leaders := Live(leaders, now);
    }
  }

  // ---- Timed traces ----

  datatype Call = Call(now: nat, op: Op)

  ghost predicate Ordered(calls: seq<Call>) {
    forall i, j :: 0 <= i <= j < |calls| ==> calls[i].now <= calls[j].now
  }

  /** The answers a caller sees, in order; clean-ups answer nothing. */
  function Answers(s: Store, calls: seq<Call>): seq<Answer>
    decreases |calls|
  {
    if calls == [] then []
    else
      var (s', a) := Apply(s, calls[0].now, calls[0].op);
      (if calls[0].op.Cleanup? then [] else [a]) + Answers(s', calls[1..])
  }

  function WithoutCleanups(calls: seq<Call>): seq<Call> {
    if calls == [] then []
    else (if calls[0].op.Cleanup? then [] else [calls[0]]) + WithoutCleanups(calls[1..])
  }

  /** Two tables no reader can tell apart from time `t` on. */
  ghost predicate Same(a: Table, b: Table, t: nat) {
    forall k :: Seen(a, k, t) == Seen(b, k, t)
  }

  ghost predicate Alike(a: Store, b: Store, t: nat) {
    Same(a.leaders, b.leaders, t) && Same(a.sticky, b.sticky, t) && Same(a.acme, b.acme, t)
  }

  lemma SameLater(a: Table, b: Table, t: nat, u: nat)
    requires Same(a, b, t) && t <= u
    ensures Same(a, b, u)
    ensures forall k :: Lookup(a, k, u) == Lookup(b, k, u)
  {
    forall k ensures Seen(a, k, u) == Seen(b, k, u) && Lookup(a, k, u) == Lookup(b, k, u) {
      assert Seen(a, k, t) == Seen(b, k, t);
    }
  }

  lemma SameAfterPut(a: Table, b: Table, t: nat, k: string, e: Entry)
    requires Same(a, b, t)
    ensures Same(a[k := e], b[k := e], t)
  {
    var a', b' := a[k := e], b[k := e];
    forall j ensures Seen(a', j, t) == Seen(b', j, t) {
      assert Seen(a, j, t) == Seen(b, j, t);
    }
  }

  lemma SameAfterDrop(a: Table, b: Table, t: nat, k: string)
    requires Same(a, b, t)
    ensures Same(a - {k}, b - {k}, t)
  {
    var a', b' := a - {k}, b - {k};
    forall j ensures Seen(a', j, t) == Seen(b', j, t) {
      assert Seen(a, j, t) == Seen(b, j, t);
    }
  }

  lemma CleanupUnseen(s: Store, now: nat)
    ensures Alike(Apply(s, now, Cleanup).0, s, now)
  {
  }

  // ---- Sessions and challenges read back ----

  function After(s: Store, calls: seq<Call>): Store {
    if calls == [] then s
    else
      var n := |calls| - 1;
      Apply(After(s, calls[..n]), calls[n].now, calls[n].op).0
  }

  /** Does the operation write the session or the challenge `k`? */
  predicate Writes(op: Op, k: string) {
    match op
    case StickySet(service, session, _, _) => StickyKey(service, session) == k
    case StickyDelete(service, session) => StickyKey(service, session) == k
    case ChallengeSet(token, _, _) => token == k
    case ChallengeDelete(token) => token == k
    case _ => false
  }

  lemma OtherOpsKeep(s: Store, now: nat, op: Op, k: string, t: nat)
    requires !Writes(op, k) && now <= t
    ensures var r := Apply(s, now, op).0;
            Lookup(r.sticky, k, t) == Lookup(s.sticky, k, t) && Lookup(r.acme, k, t) == Lookup(s.acme, k, t)
  {
  }

  /** Whatever else happens in between, clean-ups included, a session or a challenge that is not
      written again is found until it expires and not after. */
  lemma {:induction false} ReadsBack(s: Store, calls: seq<Call>, k: string, value: string, until: nat, t: nat)
    requires forall i :: 0 <= i < |calls| ==> calls[i].now <= t && !Writes(calls[i].op, k)
    ensures Stored(s.sticky, k, value, t, until) ==>
              Lookup(After(s, calls).sticky, k, t) == if t < until then Some(value) else None
    ensures Stored(s.acme, k, value, t, until) ==>
              Lookup(After(s, calls).acme, k, t) == if t < until then Some(value) else None
  {
    if calls == [] {
    } else {
      var n := |calls| - 1;
      ReadsBack(s, calls[..n], k, value, until, t);
      OtherOpsKeep(After(s, calls[..n]), calls[n].now, calls[n].op, k, t);
    }
  }

  /** A release drops an entry another reader may already treat as gone. */
  lemma SameAfterRelease(a: Table, b: Table, t: nat, k: string)
    requires Same(a, b, t) && Seen(b, k, t).None?
    ensures Same(a - {k}, b, t)
  {
    var a' := a - {k};
    forall j ensures Seen(a', j, t) == Seen(b, j, t) {
      assert Seen(a, j, t) == Seen(b, j, t);
    }
  }

  lemma ReleaseAlike(a: Store, b: Store, now: nat, task: string, node: NodeId)
    requires Alike(a, b, now)
    ensures Alike(Apply(a, now, LeaderRelease(task, node)).0, Apply(b, now, LeaderRelease(task, node)).0, now)
  {
    assert Seen(a.leaders, task, now) == Seen(b.leaders, task, now);
    SameAfterDrop(a.leaders, b.leaders, now, task);
    if Seen(a.leaders, task, now).None? {
      SameAfterRelease(a.leaders, b.leaders, now, task);
      SameAfterRelease(b.leaders, a.leaders, now, task);
    }
  }

  lemma AlikeAnswersAlike(a: Store, b: Store, now: nat, op: Op)
    requires Alike(a, b, now)
    ensures Apply(a, now, op).1 == Apply(b, now, op).1
    ensures Alike(Apply(a, now, op).0, Apply(b, now, op).0, now)
  {
    match op
    case LeaderAcquire(task, node, ttl) =>
      assert Seen(a.leaders, task, now) == Seen(b.leaders, task, now);
      SameAfterPut(a.leaders, b.leaders, now, task, Entry(node, now + ttl));
    case LeaderRelease(task, node) => ReleaseAlike(a, b, now, task, node);
    case LeaderGet(_) => SameLater(a.leaders, b.leaders, now, now);
    case StickySet(service, session, url, ttl) =>
      SameAfterPut(a.sticky, b.sticky, now, StickyKey(service, session), Entry(url, now + ttl));
    case StickyGet(_, _) => SameLater(a.sticky, b.sticky, now, now);
    case StickyDelete(service, session) => SameAfterDrop(a.sticky, b.sticky, now, StickyKey(service, session));
    case ChallengeSet(token, auth, ttl) => SameAfterPut(a.acme, b.acme, now, token, Entry(auth, now + ttl));
    case ChallengeGet(_) => SameLater(a.acme, b.acme, now, now);
    case ChallengeDelete(token) => SameAfterDrop(a.acme, b.acme, now, token);
    case Cleanup =>
      CleanupUnseen(a, now);
      CleanupUnseen(b, now);
  }

  lemma AlikeLater(a: Store, b: Store, t: nat, u: nat)
    requires Alike(a, b, t) && t <= u
    ensures Alike(a, b, u)
  {
    SameLater(a.leaders, b.leaders, t, u);
    SameLater(a.sticky, b.sticky, t, u);
    SameLater(a.acme, b.acme, t, u);
  }

  /** Stores that look alike give the same answers to the same trace, with or without clean-ups. */
  lemma {:induction false} CleanupsUnseenFrom(a: Store, b: Store, calls: seq<Call>, t: nat)
    requires Ordered(calls) && Alike(a, b, t)
    requires calls != [] ==> t <= calls[0].now
    ensures Answers(a, calls) == Answers(b, WithoutCleanups(calls))
    decreases |calls|
  {
    if calls == [] {
    } else {
      var now, op, rest := calls[0].now, calls[0].op, calls[1..];
      AlikeLater(a, b, t, now);
      var a' := Apply(a, now, op).0;
      if op.Cleanup? {
        CleanupUnseen(a, now);
        assert Alike(a', b, now) by {
          forall k ensures Seen(a'.leaders, k, now) == Seen(b.leaders, k, now) {
            assert Seen(a.leaders, k, now) == Seen(b.leaders, k, now);
          }
        }
        CleanupsUnseenFrom(a', b, rest, now);
        assert WithoutCleanups(calls) == WithoutCleanups(rest);
        assert Answers(a, calls) == Answers(a', rest);
      } else {
        AlikeAnswersAlike(a, b, now, op);
        CleanupsUnseenFrom(a', Apply(b, now, op).0, rest, now);
        assert WithoutCleanups(calls)[1..] == WithoutCleanups(rest);
      }
    }
  }

  /** Clean-ups may be inserted or dropped anywhere: no later answer changes. */
  lemma CleanupsUnseen(s: Store, calls: seq<Call>)
    requires Ordered(calls)
    ensures Answers(s, calls) == Answers(s, WithoutCleanups(calls))
  {
    CleanupsUnseenFrom(s, s, calls, 0);
  }

  // ---- The leases answer as the shared store's scripts do ----

  predicate LeaseOp(op: Op) {
    op.LeaderAcquire? || op.LeaderRelease? || op.LeaderGet?
  }

  function LeaseOf(leases: map<string, Lease>, task: string): Lease {
    if task in leases then leases[task] else Free
  }

  /** One lease operation on the shared store, by script. */
  function Script(leases: map<string, Lease>, now: nat, op: Op): (map<string, Lease>, Answer)
    requires LeaseOp(op)
  {
    match op
    case LeaderAcquire(task, node, ttl) =>
      var (lease, answer) := Acquired(LeaseOf(leases, task), node, ttl, now);
      (leases[task := lease],
       match answer case Granted => Acquisition(true) case Refused => Acquisition(false) case Rejected => Failed)
    case LeaderRelease(task, node) =>
      (leases[task := Released(LeaseOf(leases, task), node, now)], Done)
    case LeaderGet(task) => (leases, Found(Holder(LeaseOf(leases, task), now)))
  }

  function ScriptAnswers(leases: map<string, Lease>, calls: seq<Call>): seq<Answer>
    requires forall i :: 0 <= i < |calls| ==> LeaseOp(calls[i].op)
    decreases |calls|
  {
    if calls == [] then []
    else
      var (leases', a) := Script(leases, calls[0].now, calls[0].op);
      [a] + ScriptAnswers(leases', calls[1..])
  }

  predicate WholeSeconds(ttl: nat) {
    ttl > 0 && ttl % 1000 == 0
  }

  /** The lease a reader of the local table sees for a task. */
  function SeenLease(m: Table, task: string, t: nat): Lease {
    if task in m && m[task].expiresAt > t then Held(m[task].value, m[task].expiresAt) else Free
  }

  function LiveLease(lease: Lease, t: nat): Lease {
    if lease.Held? && t < lease.expires then lease else Free
  }

  ghost predicate Mirrors(m: Table, leases: map<string, Lease>, t: nat) {
    forall task :: SeenLease(m, task, t) == LiveLease(LeaseOf(leases, task), t)
  }

  lemma MirrorsLater(m: Table, leases: map<string, Lease>, t: nat, u: nat)
    requires Mirrors(m, leases, t) && t <= u
    ensures Mirrors(m, leases, u)
  {
    forall task ensures SeenLease(m, task, u) == LiveLease(LeaseOf(leases, task), u) {
      assert SeenLease(m, task, t) == LiveLease(LeaseOf(leases, task), t);
    }
  }

  lemma OpMirrors(s: Store, leases: map<string, Lease>, now: nat, op: Op)
    requires Mirrors(s.leaders, leases, now) && LeaseOp(op)
    requires op.LeaderAcquire? ==> WholeSeconds(op.ttl)
    ensures Apply(s, now, op).1 == Script(leases, now, op).1
    ensures Mirrors(Apply(s, now, op).0.leaders, Script(leases, now, op).0, now)
  {
    assert SeenLease(s.leaders, op.task, now) == LiveLease(LeaseOf(leases, op.task), now);
    assert op.LeaderAcquire? ==> Span(op.ttl) == op.ttl;
    var m, l := Apply(s, now, op).0.leaders, Script(leases, now, op).0;
    forall task ensures SeenLease(m, task, now) == LiveLease(LeaseOf(l, task), now) {
      assert SeenLease(s.leaders, task, now) == LiveLease(LeaseOf(leases, task), now);
    }
  }

  lemma {:induction false} RefinesFrom(s: Store, leases: map<string, Lease>, calls: seq<Call>, t: nat)
    requires Ordered(calls) && (calls != [] ==> t <= calls[0].now)
    requires forall i :: 0 <= i < |calls| ==> LeaseOp(calls[i].op)
    requires forall i :: 0 <= i < |calls| && calls[i].op.LeaderAcquire? ==> WholeSeconds(calls[i].op.ttl)
    requires Mirrors(s.leaders, leases, t)
    ensures Answers(s, calls) == ScriptAnswers(leases, calls)
    decreases |calls|
  {
    if calls == [] {
    } else {
      var now, op := calls[0].now, calls[0].op;
      MirrorsLater(s.leaders, leases, t, now);
      OpMirrors(s, leases, now, op);
      RefinesFrom(Apply(s, now, op).0, Script(leases, now, op).0, calls[1..], now);
    }
  }

  /** Every lease call of a trace is an acquire with this time to live, a release or a query. */
  ghost predicate LeaseTrace(ttl: nat, calls: seq<Call>) {
    && Ordered(calls)
    && forall i :: 0 <= i < |calls| ==>
         LeaseOp(calls[i].op) && (calls[i].op.LeaderAcquire? ==> calls[i].op.ttl == ttl)
  }

  function Empty(): Store {
    Store(map[], map[], map[])
  }

  /** On every timed trace the local store answers exactly as the scripts do. */
  ghost predicate AgreesWithScripts(ttl: nat) {
    forall calls :: LeaseTrace(ttl, calls) ==> Answers(Empty(), calls) == ScriptAnswers(map[], calls)
  }

  /** The local store and the scripts part on this trace unless seconds come whole: either the grant
      itself is rejected, or the script's lease is gone while the local one still stands. */
  function Probe(ttl: nat): seq<Call> {
    [Call(0, LeaderAcquire("t", "n", ttl)), Call(Span(ttl), LeaderGet("t"))]
  }

  lemma ProbeParts(ttl: nat)
    requires !WholeSeconds(ttl)
    ensures LeaseTrace(ttl, Probe(ttl)) && Answers(Empty(), Probe(ttl)) != ScriptAnswers(map[], Probe(ttl))
  {
    var calls := Probe(ttl);
    var s := Apply(Empty(), 0, calls[0].op).0;
    var l := Script(map[], 0, calls[0].op).0;
    assert calls[1..] == [calls[1]];
    assert Answers(Empty(), calls)[0] == Acquisition(true);
    assert Answers(s, calls[1..])[0] == Answers(Empty(), calls)[1];
    if Seconds(ttl) > 0 {
      assert Answers(Empty(), calls)[1] == Found(Some("n"));
      assert ScriptAnswers(l, calls[1..]) == [Found(None)];
      assert ScriptAnswers(map[], calls) == [Acquisition(true), Found(None)];
    } else {
      assert ScriptAnswers(map[], calls)[0] == Failed;
    }
  }

  /** The local store refines the scripts exactly for times to live of whole seconds. */
  lemma AgreesExactlyOnWholeSeconds(ttl: nat)
    ensures AgreesWithScripts(ttl) <==> WholeSeconds(ttl)
  {
    if WholeSeconds(ttl) {
      forall calls | LeaseTrace(ttl, calls) ensures Answers(Empty(), calls) == ScriptAnswers(map[], calls) {
        RefinesFrom(Empty(), map[], calls, 0);
      }
    } else {
      ProbeParts(ttl);
      assert !(LeaseTrace(ttl, Probe(ttl)) ==> Answers(Empty(), Probe(ttl)) == ScriptAnswers(map[], Probe(ttl)));
    }
  }
}
