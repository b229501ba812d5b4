/** Lists of route numbers by key, as the router builds them. */
module RouteIndexes {
  /** `n` once for each of the first `k` keys that is `key`. */
  function Copies(keys: seq<string>, k: nat, key: string, n: nat): seq<nat>
    requires k <= |keys|
  {
    if k == 0 then [] else Copies(keys, k - 1, key, n) + if keys[k - 1] == key then [n] else []
  }

  /** The numbers below `n` under `key`, in order. */
  function Numbers(keys: seq<seq<string>>, n: nat, key: string): seq<nat>
    requires n <= |keys|
  {
    if n == 0 then [] else Numbers(keys, n - 1, key) + Copies(keys[n - 1], |keys[n - 1]|, key, n - 1)
  }

  type Index = map<string, seq<nat>>

  function Entry(index: Index, key: string): seq<nat> {
    if key in index then index[key] else []
  }

  ghost predicate Holds(index: Index, keys: seq<seq<string>>, n: nat)
    requires n <= |keys|
  {
    && (forall key :: Entry(index, key) == Numbers(keys, n, key))
    && NoneEmpty(index)
  }

  ghost predicate NoneEmpty(index: Index) {
    forall key :: key in index ==> index[key] != []
  }

  /** `after` is `before` with `n` pushed under the first `k` keys. */
  ghost predicate Pushed(before: Index, after: Index, keys: seq<string>, k: nat, n: nat)
    requires k <= |keys|
  {
    forall key :: Entry(after, key) == Entry(before, key) + Copies(keys, k, key, n)
  }

  lemma PushOne(before: Index, after: Index, keys: seq<string>, k: nat, n: nat, key: string)
    requires k < |keys| && Entry(after, key) == Entry(before, key) + Copies(keys, k, key, n)
    ensures Entry(after[keys[k] := Entry(after, keys[k]) + [n]], key) == Entry(before, key) + Copies(keys, k + 1, key, n)
  {
    var e, c := Entry(before, key), Copies(keys, k, key, n);
    if keys[k] == key {
      assert e + c + [n] == e + (c + [n]);
    } else {
      assert c + [] == c;
    }
  }

  lemma PushNone(index: Index, keys: seq<string>, n: nat)
    ensures Pushed(index, index, keys, 0, n)
  {
    forall key
      ensures Entry(index, key) == Entry(index, key) + Copies(keys, 0, key, n)
    {
    }
  }

  lemma PushStep(before: Index, after: Index, keys: seq<string>, k: nat, n: nat)
    requires k < |keys| && Pushed(before, after, keys, k, n) && NoneEmpty(after)
    ensures var next := after[keys[k] := Entry(after, keys[k]) + [n]];
            Pushed(before, next, keys, k + 1, n) && NoneEmpty(next)
  {
    var next := after[keys[k] := Entry(after, keys[k]) + [n]];
    forall key
      ensures Entry(next, key) == Entry(before, key) + Copies(keys, k + 1, key, n)
    {
      PushOne(before, after, keys, k, n, key);
    }
  }

  /** Push `n` under each of its keys. */
  method PushAll(index: Index, keys: seq<string>, n: nat) returns (result: Index)
    requires NoneEmpty(index)
    ensures Pushed(index, result, keys, |keys|, n) && NoneEmpty(result)
  {
    result := index;
    PushNone(index, keys, n);
    for k := 0 to |keys|
      invariant Pushed(index, result, keys, k, n) && NoneEmpty(result)
    {
      PushStep(index, result, keys, k, n);
      result := result[keys[k] := Entry(result, keys[k]) + [n]];
    }
  }

  lemma {:induction false} CopiesMember(keys: seq<string>, k: nat, key: string, n: nat)
    requires k <= |keys|
    ensures forall m: nat :: m in Copies(keys, k, key, n) <==> m == n && key in keys[..k]
  {
    if k == 0 {
    } else {
      CopiesMember(keys, k - 1, key, n);
      assert keys[..k] == keys[..k - 1] + [keys[k - 1]];
    }
  }

  ghost predicate Ascending(s: seq<nat>) {
    forall i, j :: 0 <= i < j < |s| ==> s[i] <= s[j]
  }

  /** The numbers under a key are those that have it, in ascending order. */
  lemma {:induction false} NumbersMember(keys: seq<seq<string>>, n: nat, key: string)
    requires n <= |keys|
    ensures forall m: nat :: m in Numbers(keys, n, key) <==> m < n && key in keys[m]
    ensures Ascending(Numbers(keys, n, key))
  {
    if n == 0 {
    } else {
      NumbersMember(keys, n - 1, key);
      var ks := keys[n - 1];
      CopiesMember(ks, |ks|, key, n - 1);
      assert ks[..|ks|] == ks;
      AscendingConcat(Numbers(keys, n - 1, key), Copies(ks, |ks|, key, n - 1), n - 1);
    }
  }

  lemma AscendingConcat(a: seq<nat>, b: seq<nat>, n: nat)
    requires Ascending(a) && (forall m :: m in a ==> m <= n) && (forall m :: m in b ==> m == n)
    ensures Ascending(a + b)
  {
    var s := a + b;
    forall i, j | 0 <= i < j < |s|
      ensures s[i] <= s[j]
    {
      assert i < |a| ==> s[i] in a;
      assert i >= |a| ==> s[i] in b;
      assert j >= |a| ==> s[j] in b;
    }
  }
}

/** Choosing the route of a request. */
module Routers {
  import opened Rules
  import opened RouteIndexes
  import opened Sequences
  import opened Wrappers
  import RuleParser

  datatype RouterConfig = RouterConfig(
    name: string, rule: string, entrypoints: seq<string>, service: string, middlewares: seq<string>, priority: int)

  datatype Route = Route(
    name: string, entrypoints: seq<string>, rule: Rule, service: string, middlewares: seq<string>, priority: int,
    hostIndexed: bool)

  // ---- Order ----

  ghost predicate Sorted(routes: seq<Route>) {
    forall i, j :: 0 <= i < j < |routes| ==> routes[i].priority >= routes[j].priority
  }

  /** Insert a route behind all that come before it and rank at least as high. */
  function Insert(routes: seq<Route>, r: Route): seq<Route> {
    if routes == [] || routes[|routes| - 1].priority >= r.priority then routes + [r]
    else Insert(routes[..|routes| - 1], r) + [routes[|routes| - 1]]
  }

  /** The stable sort by descending priority of the first `n` routes. */
  function SortedTo(routes: seq<Route>, n: nat): seq<Route>
    requires n <= |routes|
  {
    if n == 0 then [] else Insert(SortedTo(routes, n - 1), routes[n - 1])
  }

  function OfPriority(routes: seq<Route>, p: int): seq<Route> {
    if routes == [] then []
    else
      var before, last := OfPriority(routes[..|routes| - 1], p), routes[|routes| - 1];
      if last.priority == p then before + [last] else before
  }

  lemma {:induction false} InsertAdds(routes: seq<Route>, r: Route)
    ensures multiset(Insert(routes, r)) == multiset(routes) + multiset{r}
  {
    if routes == [] || routes[|routes| - 1].priority >= r.priority {
    } else {
      var k := |routes| - 1;
      InsertAdds(routes[..k], r);
      assert routes == routes[..k] + [routes[k]];
    }
  }

  lemma SortedAppend(routes: seq<Route>, r: Route)
    requires Sorted(routes) && forall i :: 0 <= i < |routes| ==> routes[i].priority >= r.priority
    ensures Sorted(routes + [r])
  {
  }

  lemma {:induction false} InsertSorts(routes: seq<Route>, r: Route, floor: int)
    requires Sorted(routes) && r.priority >= floor && forall i :: 0 <= i < |routes| ==> routes[i].priority >= floor
    ensures var s := Insert(routes, r); Sorted(s) && forall i :: 0 <= i < |s| ==> s[i].priority >= floor
  {
    if routes != [] && routes[|routes| - 1].priority < r.priority {
      var k := |routes| - 1;
      InsertSorts(routes[..k], r, routes[k].priority);
      SortedAppend(Insert(routes[..k], r), routes[k]);
    } else {
      SortedAppend(routes, r);
    }
  }

  lemma LastOfPriority(routes: seq<Route>, last: Route, p: int)
    ensures OfPriority(routes + [last], p) == if last.priority == p then OfPriority(routes, p) + [last] else OfPriority(routes, p)
  {
    assert (routes + [last])[..|routes|] == routes;
  }

  lemma {:induction false} InsertIsStable(routes: seq<Route>, r: Route, p: int)
    ensures OfPriority(Insert(routes, r), p) == if r.priority == p then OfPriority(routes, p) + [r] else OfPriority(routes, p)
  {
    if routes == [] || routes[|routes| - 1].priority >= r.priority {
      LastOfPriority(routes, r, p);
    } else {
      var k := |routes| - 1;
      var front, last := routes[..k], routes[k];
      InsertIsStable(front, r, p);
      LastOfPriority(Insert(front, r), last, p);
    }
  }

  lemma SortedFloor(routes: seq<Route>) returns (floor: int)
    ensures forall i :: 0 <= i < |routes| ==> routes[i].priority >= floor
  {
    floor := 0;
    for k := 0 to |routes|
      invariant forall i :: 0 <= i < k ==> routes[i].priority >= floor
    {
      if routes[k].priority < floor {
        floor := routes[k].priority;
      }
    }
  }

  /** Sorting puts higher priorities first. */
  lemma {:induction false} SortSorts(routes: seq<Route>, n: nat)
    requires n <= |routes|
    ensures Sorted(SortedTo(routes, n))
  {
    if n == 0 {
    } else {
      SortSorts(routes, n - 1);
      var s, r := SortedTo(routes, n - 1), routes[n - 1];
      var floor := SortedFloor(s);
      InsertSorts(s, r, if r.priority < floor then r.priority else floor);
    }
  }

  /** Sorting loses and invents no route. */
  lemma {:induction false} SortPermutes(routes: seq<Route>, n: nat)
    requires n <= |routes|
    ensures multiset(SortedTo(routes, n)) == multiset(routes[..n])
  {
    if n == 0 {
    } else {
      SortPermutes(routes, n - 1);
      InsertAdds(SortedTo(routes, n - 1), routes[n - 1]);
      TakeOneMore(routes, n);
    }
  }

  lemma TakeOneMore(routes: seq<Route>, n: nat)
    requires 0 < n <= |routes|
    ensures multiset(routes[..n]) == multiset(routes[..n - 1]) + multiset{routes[n - 1]}
  {
    assert routes[..n] == routes[..n - 1] + [routes[n - 1]];
  }

  /** Routes of one priority keep their order. */
  lemma {:induction false} SortIsStable(routes: seq<Route>, n: nat, p: int)
    requires n <= |routes|
    ensures OfPriority(SortedTo(routes, n), p) == OfPriority(routes[..n], p)
  {
    if n == 0 {
    } else {
      SortIsStable(routes, n - 1, p);
      InsertIsStable(SortedTo(routes, n - 1), routes[n - 1], p);
      TakeOfPriority(routes, n, p);
    }
  }

  lemma TakeOfPriority(routes: seq<Route>, n: nat, p: int)
    requires 0 < n <= |routes|
    ensures var before, last := OfPriority(routes[..n - 1], p), routes[n - 1];
            OfPriority(routes[..n], p) == if last.priority == p then before + [last] else before
  {
    assert routes[..n][..n - 1] == routes[..n - 1];
  }

  // ---- Building the router ----

  /** The routes of the first `n` configurations whose rules parse. */
  function ParsedTo(configs: seq<RouterConfig>, n: nat, valid: string -> bool): seq<Route>
    requires n <= |configs|
  {
    if n == 0 then []
    else
      var before, c := ParsedTo(configs, n - 1, valid), configs[n - 1];
      match RuleParser.Parse(c.rule, valid)
      case Ok(rule) => before + [Route(c.name, c.entrypoints, rule, c.service, c.middlewares, c.priority, false)]
      case Err(_) => before
  }

  /** The routes of the configurations whose rules parse, one each and in order. */
  method ParseRoutes(configs: seq<RouterConfig>, valid: string -> bool) returns (routes: seq<Route>)
    ensures routes == ParsedTo(configs, |configs|, valid)
    ensures exists origin: seq<nat> :: ParsedFrom(configs, valid, routes, origin)
  {
    routes := [];
    for i := 0 to |configs|
      invariant routes == ParsedTo(configs, i, valid)
    {
      var c := configs[i];
      match RuleParser.Parse(c.rule, valid)
      case Ok(rule) => routes := routes + [Route(c.name, c.entrypoints, rule, c.service, c.middlewares, c.priority, false)];
      case Err(_) =>
    }
    ghost var _ := ParsedPlaces(configs, valid, routes);
  }

  function Marked(r: Route): Route {
    r.(hostIndexed := Hosts(r.rule) != [])
  }

  function HostKeys(r: Route): seq<string> {
    seq(|Hosts(r.rule)|, i requires 0 <= i < |Hosts(r.rule)| => Lower(Hosts(r.rule)[i]))
  }

  function AllHosts(routes: seq<Route>): seq<seq<string>> {
    seq(|routes|, i requires 0 <= i < |routes| => HostKeys(routes[i]))
  }

  function AllEntrypoints(routes: seq<Route>): seq<seq<string>> {
    seq(|routes|, i requires 0 <= i < |routes| => routes[i].entrypoints)
  }

  lemma HoldsNext(index: Index, next: Index, keys: seq<seq<string>>, n: nat)
    requires n < |keys| && Holds(index, keys, n)
    requires Pushed(index, next, keys[n], |keys[n]|, n) && NoneEmpty(next)
    ensures Holds(next, keys, n + 1)
  {
    forall key
      ensures Entry(next, key) == Numbers(keys, n + 1, key)
    {
      assert Entry(index, key) == Numbers(keys, n, key);
    }
  }

  lemma HoldsWithout(index: Index, keys: seq<seq<string>>, n: nat)
    requires n < |keys| && Holds(index, keys, n) && keys[n] == []
    ensures Holds(index, keys, n + 1)
  {
    forall key
      ensures Entry(index, key) == Numbers(keys, n + 1, key)
    {
      assert Numbers(keys, n, key) + [] == Numbers(keys, n, key);
    }
  }

  /** Index the routes by the hosts their rules insist on, and mark those that are. */
  method BuildHostIndex(routes: seq<Route>) returns (marked: seq<Route>, index: Index)
    ensures |marked| == |routes| && forall i :: 0 <= i < |routes| ==> marked[i] == Marked(routes[i])
    ensures Holds(index, AllHosts(routes), |routes|)
  {
    marked, index := routes, map[];
    var keys := AllHosts(routes);
    for i := 0 to |routes|
      invariant |marked| == |routes|
      invariant forall k :: 0 <= k < |routes| ==> marked[k] == if k < i then Marked(routes[k]) else routes[k]
      invariant Holds(index, keys, i)
    {
      var hosts := Hosts(routes[i].rule);
      marked := marked[i := routes[i].(hostIndexed := hosts != [])];
      ghost var was := index;
      index := PushAll(index, HostKeys(routes[i]), i);
      HoldsNext(was, index, keys, i);
    }
  }

  /** The routes bound to no entrypoint among the first `n`. */
  function CatchAll(routes: seq<Route>, n: nat): seq<nat>
    requires n <= |routes|
  {
    if n == 0 then []
    else if routes[n - 1].entrypoints == [] then CatchAll(routes, n - 1) + [n - 1]
    else CatchAll(routes, n - 1)
  }

  method BuildEntrypointIndex(routes: seq<Route>) returns (index: Index, catchAll: seq<nat>)
    ensures Holds(index, AllEntrypoints(routes), |routes|) && catchAll == CatchAll(routes, |routes|)
  {
    index, catchAll := map[], [];
    var keys := AllEntrypoints(routes);
    for i := 0 to |routes|
      invariant catchAll == CatchAll(routes, i)
      invariant Holds(index, keys, i)
    {
      var entrypoints := keys[i];
      ghost var was := index;
      if entrypoints == [] {
        catchAll := catchAll + [i];
        HoldsWithout(index, keys, i);
      } else {
        index := PushAll(index, entrypoints, i);
        HoldsNext(was, index, keys, i);
      }
    }
  }

  ghost predicate Within(s: seq<nat>, n: nat) {
    forall i :: 0 <= i < |s| ==> s[i] < n
  }

  /** The merge of two lists by priority; of two equals, the first list's comes first. */
  function Merged(routes: seq<Route>, a: seq<nat>, b: seq<nat>): seq<nat>
    requires Within(a, |routes|) && Within(b, |routes|)
  {
    if a == [] then b
    else if b == [] then a
    else if routes[a[0]].priority >= routes[b[0]].priority then [a[0]] + Merged(routes, a[1..], b)
    else [b[0]] + Merged(routes, a, b[1..])
  }

  /** With `done` merged so far, the rest of the lists completes the merge. */
  ghost predicate Merging(routes: seq<Route>, a: seq<nat>, b: seq<nat>, done: seq<nat>, whole: seq<nat>) {
    Within(a, |routes|) && Within(b, |routes|) && done + Merged(routes, a, b) == whole
  }

  lemma MergeStep(routes: seq<Route>, a: seq<nat>, b: seq<nat>, i: nat, j: nat, done: seq<nat>, whole: seq<nat>)
    requires i < |a| && j < |b| && Merging(routes, a[i..], b[j..], done, whole)
    ensures a[i] < |routes| && b[j] < |routes|
    ensures if routes[a[i]].priority >= routes[b[j]].priority then Merging(routes, a[i + 1..], b[j..], done + [a[i]], whole)
            else Merging(routes, a[i..], b[j + 1..], done + [b[j]], whole)
  {
    assert a[i..][0] == a[i] && b[j..][0] == b[j] && a[i..][1..] == a[i + 1..] && b[j..][1..] == b[j + 1..];
    if routes[a[i]].priority >= routes[b[j]].priority {
      Regroup(done, [a[i]], Merged(routes, a[i + 1..], b[j..]));
    } else {
      Regroup(done, [b[j]], Merged(routes, a[i..], b[j + 1..]));
    }
  }

  lemma MergeStart(routes: seq<Route>, a: seq<nat>, b: seq<nat>)
    requires Within(a, |routes|) && Within(b, |routes|)
    ensures Merging(routes, a[0..], b[0..], [], Merged(routes, a, b))
  {
    assert a[0..] == a && b[0..] == b;
  }

  lemma MergeEnd(routes: seq<Route>, a: seq<nat>, b: seq<nat>, i: nat, j: nat, done: seq<nat>, whole: seq<nat>)
    requires i <= |a| && j <= |b| && (i == |a| || j == |b|) && Merging(routes, a[i..], b[j..], done, whole)
    ensures done + a[i..] + b[j..] == whole
  {
    var x, y := a[i..], b[j..];
    assert x + y == if x == [] then y else x;
    Regroup(done, x, y);
  }

  /** Merge the routes bound to an entrypoint with those bound to none. */
  method Merge(routes: seq<Route>, candidates: seq<nat>, catchAll: seq<nat>) returns (merged: seq<nat>)
    requires Within(candidates, |routes|) && Within(catchAll, |routes|)
    ensures merged == Merged(routes, candidates, catchAll)
  {
    merged := [];
    var i, j := 0, 0;
    ghost var whole := Merged(routes, candidates, catchAll);
    MergeStart(routes, candidates, catchAll);
    while i < |candidates| && j < |catchAll|
      invariant i <= |candidates| && j <= |catchAll|
      invariant Merging(routes, candidates[i..], catchAll[j..], merged, whole)
    {
      MergeStep(routes, candidates, catchAll, i, j, merged, whole);
      if routes[candidates[i]].priority >= routes[catchAll[j]].priority {
        merged := merged + [candidates[i]];
        i := i + 1;
      } else {
        merged := merged + [catchAll[j]];
        j := j + 1;
      }
    }
    MergeEnd(routes, candidates, catchAll, i, j, merged, whole);
    merged := merged + candidates[i..];
    merged := merged + catchAll[j..];
  }

  ghost predicate AllWithin(index: Index, n: nat) {
    forall key :: key in index ==> Within(index[key], n)
  }

  /** Merge the unbound routes into the candidates of every entrypoint. */
  method MergeAll(routes: seq<Route>, index: Index, catchAll: seq<nat>) returns (result: Index)
    requires AllWithin(index, |routes|) && Within(catchAll, |routes|)
    ensures result.Keys == index.Keys
    ensures forall key :: key in index ==> result[key] == Merged(routes, index[key], catchAll)
  {
    result := index;
    var todo := index.Keys;
    while todo != {}
      invariant todo <= index.Keys == result.Keys
      invariant forall key :: key in index && key in todo ==> result[key] == index[key]
      invariant forall key :: key in index && key !in todo ==> result[key] == Merged(routes, index[key], catchAll)
    {
      var key :| key in todo;
      var merged := Merge(routes, result[key], catchAll);
      result := result[key := merged];
      todo := todo - {key};
    }
  }

  // ---- From configurations to routes ----

  predicate Parses(c: RouterConfig, valid: string -> bool) {
    RuleParser.Parse(c.rule, valid).Ok?
  }

  /** `r` does what `c` asks for. */
  predicate Fulfils(r: Route, c: RouterConfig, valid: string -> bool) {
    && r.name == c.name
    && r.entrypoints == c.entrypoints
    && r.service == c.service
    && r.middlewares == c.middlewares
    && r.priority == c.priority
    && RuleParser.Parse(c.rule, valid) == Ok(r.rule)
  }

  /** The order of configurations: by priority, and then as given. */
  predicate Ranks(configs: seq<RouterConfig>, c: nat, d: nat)
    requires c < |configs| && d < |configs|
  {
    configs[c].priority > configs[d].priority || (configs[c].priority == configs[d].priority && c < d)
  }

  ghost predicate AllFulfil(configs: seq<RouterConfig>, valid: string -> bool, routes: seq<Route>, origin: seq<nat>) {
    && |origin| == |routes|
    && forall i :: 0 <= i < |routes| ==> origin[i] < |configs| && Fulfils(routes[i], configs[origin[i]], valid)
  }

  /** Every configuration whose rule parses has a route, and just one since `origin` is in strict order;
      no route comes from elsewhere. */
  ghost predicate BuiltFrom(configs: seq<RouterConfig>, valid: string -> bool, routes: seq<Route>, origin: seq<nat>) {
    && AllFulfil(configs, valid, routes, origin)
    && (forall c: nat :: c < |configs| && Parses(configs[c], valid) ==> c in origin)
    && forall i, j :: 0 <= i < j < |origin| ==> Ranks(configs, origin[i], origin[j])
  }

  /** The numbers below `n` that are kept, in order. */
  ghost function Kept(keep: seq<bool>, n: nat): seq<nat>
    requires n <= |keep|
  {
    if n == 0 then [] else Kept(keep, n - 1) + if keep[n - 1] then [n - 1] else []
  }

  ghost predicate StrictlyAscending(s: seq<nat>) {
    forall i, j :: 0 <= i < j < |s| ==> s[i] < s[j]
  }

  lemma AppendAscends(s: seq<nat>, n: nat)
    requires StrictlyAscending(s) && forall m: nat :: m in s ==> m < n
    ensures StrictlyAscending(s + [n])
  {
    assert forall i :: 0 <= i < |s| ==> s[i] in s;
  }

  lemma {:induction false} KeptMember(keep: seq<bool>, n: nat)
    requires n <= |keep|
    ensures forall c: nat :: c in Kept(keep, n) <==> c < n && keep[c]
    ensures StrictlyAscending(Kept(keep, n))
  {
    if n == 0 {
    } else {
      KeptMember(keep, n - 1);
      AppendAscends(Kept(keep, n - 1), n - 1);
    }
  }

  /** One configuration more brings one route if its rule parses, and otherwise none. */
  lemma FulfilOneMore(configs: seq<RouterConfig>, valid: string -> bool, routes: seq<Route>, origin: seq<nat>,
                      more: seq<Route>, c: nat, parses: bool)
    requires AllFulfil(configs, valid, routes, origin) && c < |configs|
    requires if parses then |more| == 1 && Fulfils(more[0], configs[c], valid) else more == []
    ensures AllFulfil(configs, valid, routes + more, origin + if parses then [c] else [])
  {
  }

  lemma ParsedOneMore(configs: seq<RouterConfig>, n: nat, valid: string -> bool) returns (more: seq<Route>)
    requires 0 < n <= |configs|
    ensures ParsedTo(configs, n, valid) == ParsedTo(configs, n - 1, valid) + more
    ensures if Parses(configs[n - 1], valid) then |more| == 1 && Fulfils(more[0], configs[n - 1], valid) else more == []
  {
    var c := configs[n - 1];
    match RuleParser.Parse(c.rule, valid)
    case Ok(rule) => more := [Route(c.name, c.entrypoints, rule, c.service, c.middlewares, c.priority, false)];
    case Err(_) => more := [];
  }

  lemma {:induction false} ParsedFulfil(configs: seq<RouterConfig>, n: nat, valid: string -> bool, keep: seq<bool>)
    requires n <= |configs| == |keep| && forall i :: 0 <= i < |keep| ==> keep[i] == Parses(configs[i], valid)
    ensures AllFulfil(configs, valid, ParsedTo(configs, n, valid), Kept(keep, n))
  {
    if n == 0 {
    } else {
      ParsedFulfil(configs, n - 1, valid, keep);
      var more := ParsedOneMore(configs, n, valid);
      FulfilOneMore(configs, valid, ParsedTo(configs, n - 1, valid), Kept(keep, n - 1), more, n - 1, keep[n - 1]);
    }
  }

  /** The routes stand for the configurations numbered by `origin`: all whose rules parse, in order. */
  ghost predicate ParsedFrom(configs: seq<RouterConfig>, valid: string -> bool, routes: seq<Route>, origin: seq<nat>) {
    && AllFulfil(configs, valid, routes, origin)
    && StrictlyAscending(origin)
    && forall c: nat :: c in origin <==> c < |configs| && Parses(configs[c], valid)
  }

  lemma ParsedPlaces(configs: seq<RouterConfig>, valid: string -> bool, parsed: seq<Route>) returns (origin: seq<nat>)
    requires parsed == ParsedTo(configs, |configs|, valid)
    ensures ParsedFrom(configs, valid, parsed, origin)
  {
    var keep := seq(|configs|, i requires 0 <= i < |configs| => Parses(configs[i], valid));
    origin := Kept(keep, |configs|);
    ParsedFulfil(configs, |configs|, valid, keep);
    KeptMember(keep, |configs|);
  }

  /** Where a route is inserted: in front of just those that rank lower. */
  lemma {:induction false} InsertedAt(routes: seq<Route>, r: Route) returns (k: nat)
    requires Sorted(routes)
    ensures k <= |routes| && Insert(routes, r) == Spliced(routes, k, r)
    ensures forall i :: 0 <= i < k ==> routes[i].priority >= r.priority
    ensures forall i :: k <= i < |routes| ==> routes[i].priority < r.priority
  {
    var n := |routes| - 1;
    if routes == [] || routes[n].priority >= r.priority {
      k := |routes|;
      SplicedLast(routes, r);
    } else {
      k := InsertedAt(routes[..n], r);
      SplicedEarlier(routes, k, r);
    }
  }

  /** The first is the higher, or of the same priority with the lower number. */
  predicate Outranks(r: Route, m: nat, s: Route, n: nat) {
    r.priority > s.priority || (r.priority == s.priority && m < n)
  }

  ghost predicate Drawn(routes: seq<Route>, sorted: seq<Route>, at: seq<nat>) {
    && |at| == |sorted|
    && forall i :: 0 <= i < |at| ==> at[i] < |routes| && sorted[i] == routes[at[i]]
  }

  /** `sorted` holds the routes numbered by `at`: by priority, and then by number. */
  ghost predicate SortedBy(routes: seq<Route>, sorted: seq<Route>, at: seq<nat>) {
    && Drawn(routes, sorted, at)
    && forall i, j :: 0 <= i < j < |at| ==> Outranks(sorted[i], at[i], sorted[j], at[j])
  }

  lemma InsertedBy(routes: seq<Route>, sorted: seq<Route>, at: seq<nat>, n: nat, k: nat)
    requires n < |routes| && SortedBy(routes, sorted, at) && (forall i :: 0 <= i < |at| ==> at[i] < n)
    requires k <= |sorted|
    requires forall i :: 0 <= i < k ==> sorted[i].priority >= routes[n].priority
    requires forall i :: k <= i < |sorted| ==> sorted[i].priority < routes[n].priority
    ensures SortedBy(routes, Spliced(sorted, k, routes[n]), Spliced(at, k, n))
  {
    var s, a := Spliced(sorted, k, routes[n]), Spliced(at, k, n);
    forall i | 0 <= i < |a|
      ensures a[i] < |routes| && s[i] == routes[a[i]]
    {
      SplicedAt(sorted, k, routes[n], i);
      SplicedAt(at, k, n, i);
    }
    forall i, j | 0 <= i < j < |a|
      ensures Outranks(s[i], a[i], s[j], a[j])
    {
      SplicedAt(sorted, k, routes[n], i);
      SplicedAt(at, k, n, i);
      SplicedAt(sorted, k, routes[n], j);
      SplicedAt(at, k, n, j);
    }
  }

  ghost predicate AllBelow(at: seq<nat>, n: nat) {
    forall m: nat :: m in at <==> m < n
  }

  ghost predicate Placed(routes: seq<Route>, n: nat, sorted: seq<Route>, at: seq<nat>) {
    SortedBy(routes, sorted, at) && AllBelow(at, n)
  }

  /** `sorted` is the sort of the first `n` routes. */
  ghost predicate IsSortOf(routes: seq<Route>, n: nat, sorted: seq<Route>) {
    exists at: seq<nat> :: Placed(routes, n, sorted, at)
  }

  lemma PlaceOneMore(routes: seq<Route>, n: nat, sorted: seq<Route>, before: seq<nat>, k: nat)
    requires n < |routes| && Placed(routes, n, sorted, before) && k <= |sorted|
    requires forall i :: 0 <= i < k ==> sorted[i].priority >= routes[n].priority
    requires forall i :: k <= i < |sorted| ==> sorted[i].priority < routes[n].priority
    ensures Placed(routes, n + 1, Spliced(sorted, k, routes[n]), Spliced(before, k, n))
  {
    assert forall i :: 0 <= i < |before| ==> before[i] in before;
    InsertedBy(routes, sorted, before, n, k);
    SplicedMember(before, k, n);
  }

  lemma PlacedSorted(routes: seq<Route>, n: nat, sorted: seq<Route>, at: seq<nat>)
    requires Placed(routes, n, sorted, at)
    ensures Sorted(sorted)
  {
    assert forall i, j :: 0 <= i < j < |sorted| ==> Outranks(sorted[i], at[i], sorted[j], at[j]);
  }

  lemma InsertSortsOneMore(routes: seq<Route>, n: nat, sorted: seq<Route>, next: seq<Route>)
    requires n < |routes| && IsSortOf(routes, n, sorted) && next == Insert(sorted, routes[n])
    ensures IsSortOf(routes, n + 1, next)
  {
    var at: seq<nat> :| Placed(routes, n, sorted, at);
    PlacedSorted(routes, n, sorted, at);
    var k := InsertedAt(sorted, routes[n]);
    PlaceOneMore(routes, n, sorted, at, k);
  }

  lemma NothingSorted(routes: seq<Route>)
    ensures IsSortOf(routes, 0, [])
  {
    assert Placed(routes, 0, [], []);
  }

  /** Sorting lists the routes by priority, and then by number, each once. */
  lemma {:induction false} SortIsSort(routes: seq<Route>, n: nat, sorted: seq<Route>)
    requires n <= |routes| && sorted == SortedTo(routes, n)
    ensures IsSortOf(routes, n, sorted)
  {
    if n == 0 {
      NothingSorted(routes);
    } else {
      var before := SortedTo(routes, n - 1);
      SortIsSort(routes, n - 1, before);
      InsertSortsOneMore(routes, n - 1, before, sorted);
    }
  }

  /** `places` lists `from` in the order of `at`. */
  ghost predicate Reordered(from: seq<nat>, at: seq<nat>, places: seq<nat>) {
    |places| == |at| && forall i :: 0 <= i < |at| ==> at[i] < |from| && places[i] == from[at[i]]
  }

  lemma Reorder(from: seq<nat>, at: seq<nat>) returns (places: seq<nat>)
    requires AllBelow(at, |from|)
    ensures Reordered(from, at, places)
  {
    assert forall i :: 0 <= i < |at| ==> at[i] in at;
    places := seq(|at|, i requires 0 <= i < |at| => from[at[i]]);
  }

  lemma ReorderedMember(from: seq<nat>, at: seq<nat>, places: seq<nat>, c: nat)
    requires Reordered(from, at, places) && AllBelow(at, |from|) && c in from
    ensures c in places
  {
    var m :| 0 <= m < |from| && from[m] == c;
    assert m in at;
    var i :| 0 <= i < |at| && at[i] == m;
    assert places[i] == c;
  }

  lemma ReorderedRanks(configs: seq<RouterConfig>, valid: string -> bool, parsed: seq<Route>, from: seq<nat>,
                       sorted: seq<Route>, at: seq<nat>, places: seq<nat>, i: nat, j: nat)
    requires AllFulfil(configs, valid, parsed, from) && StrictlyAscending(from)
    requires SortedBy(parsed, sorted, at) && Reordered(from, at, places) && i < j < |places|
    ensures places[i] < |configs| && places[j] < |configs| && Ranks(configs, places[i], places[j])
  {
    assert Outranks(sorted[i], at[i], sorted[j], at[j]);
    assert Fulfils(parsed[at[i]], configs[places[i]], valid) && Fulfils(parsed[at[j]], configs[places[j]], valid);
  }

  lemma MarkedFulfil(configs: seq<RouterConfig>, valid: string -> bool, parsed: seq<Route>, from: seq<nat>,
                     sorted: seq<Route>, at: seq<nat>, marked: seq<Route>, places: seq<nat>)
    requires AllFulfil(configs, valid, parsed, from) && Drawn(parsed, sorted, at) && Reordered(from, at, places)
    requires |marked| == |sorted| && forall i :: 0 <= i < |sorted| ==> marked[i] == Marked(sorted[i])
    ensures AllFulfil(configs, valid, marked, places)
  {
    forall i | 0 <= i < |marked|
      ensures places[i] < |configs| && Fulfils(marked[i], configs[places[i]], valid)
    {
      assert Fulfils(parsed[at[i]], configs[from[at[i]]], valid);
    }
  }

  /** The place in the configuration of each route of the router. */
  lemma Places(configs: seq<RouterConfig>, valid: string -> bool, parsed: seq<Route>, sorted: seq<Route>, marked: seq<Route>)
    returns (origin: seq<nat>)
    requires parsed == ParsedTo(configs, |configs|, valid) && sorted == SortedTo(parsed, |parsed|)
    requires |marked| == |sorted| && forall i :: 0 <= i < |sorted| ==> marked[i] == Marked(sorted[i])
    ensures BuiltFrom(configs, valid, marked, origin)
  {
    var from := ParsedPlaces(configs, valid, parsed);
    SortIsSort(parsed, |parsed|, sorted);
    var at: seq<nat> :| Placed(parsed, |parsed|, sorted, at);
    origin := Reorder(from, at);
    MarkedFulfil(configs, valid, parsed, from, sorted, at, marked, origin);
    forall c: nat | c < |configs| && Parses(configs[c], valid)
      ensures c in origin
    {
      ReorderedMember(from, at, origin, c);
    }
    forall i, j | 0 <= i < j < |origin|
      ensures Ranks(configs, origin[i], origin[j])
    {
      ReorderedRanks(configs, valid, parsed, from, sorted, at, origin, i, j);
    }
  }

  // ---- Candidates ----

  lemma {:induction false} CatchAllMember(routes: seq<Route>, n: nat)
    requires n <= |routes|
    ensures forall m: nat :: m in CatchAll(routes, n) <==> m < n && routes[m].entrypoints == []
  {
    if n == 0 {
    } else {
      CatchAllMember(routes, n - 1);
    }
  }

  lemma {:induction false} CatchAllAscends(routes: seq<Route>, n: nat)
    requires n <= |routes|
    ensures Ascending(CatchAll(routes, n))
  {
    if n == 0 {
    } else {
      CatchAllAscends(routes, n - 1);
      CatchAllMember(routes, n - 1);
      if routes[n - 1].entrypoints == [] {
        AscendingConcat(CatchAll(routes, n - 1), [n - 1], n - 1);
      }
    }
  }

  predicate Bound(r: Route, entrypoint: string) {
    r.entrypoints == [] || entrypoint in r.entrypoints
  }

  /** The order in which candidates are tried: by priority, among equals those bound to the entrypoint
      first, and then as configured. */
  predicate Precedes(routes: seq<Route>, i: nat, j: nat)
    requires i < |routes| && j < |routes|
  {
    var r, s := routes[i], routes[j];
    || r.priority > s.priority
    || (r.priority == s.priority && r.entrypoints != [] && s.entrypoints == [])
    || (r.priority == s.priority && (r.entrypoints == [] <==> s.entrypoints == []) && i <= j)
  }

  ghost predicate InOrder(routes: seq<Route>, list: seq<nat>)
    requires Within(list, |routes|)
  {
    forall i, j :: 0 <= i < j < |list| ==> Precedes(routes, list[i], list[j])
  }

  lemma {:induction false} MergedMember(routes: seq<Route>, a: seq<nat>, b: seq<nat>)
    requires Within(a, |routes|) && Within(b, |routes|)
    ensures forall m: nat :: m in Merged(routes, a, b) <==> m in a || m in b
    ensures Within(Merged(routes, a, b), |routes|)
    decreases |a| + |b|
  {
    if a != [] && b != [] {
      if routes[a[0]].priority >= routes[b[0]].priority {
        MergedMember(routes, a[1..], b);
        assert a == [a[0]] + a[1..];
      } else {
        MergedMember(routes, a, b[1..]);
        assert b == [b[0]] + b[1..];
      }
    }
  }

  lemma HeadCounted(s: seq<nat>)
    requires s != []
    ensures multiset(s) == multiset{s[0]} + multiset(s[1..])
  {
    assert s == [s[0]] + s[1..];
  }

  /** The merge loses and invents no candidate. */
  lemma {:induction false} MergedPermutes(routes: seq<Route>, a: seq<nat>, b: seq<nat>)
    requires Within(a, |routes|) && Within(b, |routes|)
    ensures multiset(Merged(routes, a, b)) == multiset(a) + multiset(b)
    decreases |a| + |b|
  {
    if a != [] && b != [] {
      HeadCounted(Merged(routes, a, b));
      if routes[a[0]].priority >= routes[b[0]].priority {
        HeadCounted(a);
        MergedPermutes(routes, a[1..], b);
      } else {
        HeadCounted(b);
        MergedPermutes(routes, a, b[1..]);
      }
    }
  }

  ghost predicate Mergeable(routes: seq<Route>, a: seq<nat>, b: seq<nat>) {
    && Within(a, |routes|) && Within(b, |routes|)
    && Ascending(a) && Ascending(b)
    && (forall i :: 0 <= i < |a| ==> routes[a[i]].entrypoints != [])
    && (forall i :: 0 <= i < |b| ==> routes[b[i]].entrypoints == [])
  }

  lemma AscendingInOrder(routes: seq<Route>, a: seq<nat>, catchAll: bool)
    requires Sorted(routes) && Within(a, |routes|) && Ascending(a)
    requires forall i :: 0 <= i < |a| ==> (routes[a[i]].entrypoints == [] <==> catchAll)
    ensures InOrder(routes, a)
  {
    forall i, j | 0 <= i < j < |a|
      ensures Precedes(routes, a[i], a[j])
    {
      assert a[i] <= a[j];
    }
  }

  lemma InOrderCons(routes: seq<Route>, x: nat, list: seq<nat>)
    requires x < |routes| && Within(list, |routes|) && InOrder(routes, list)
    requires forall m: nat :: m in list ==> m < |routes| && Precedes(routes, x, m)
    ensures Within([x] + list, |routes|) && InOrder(routes, [x] + list)
  {
    var l := [x] + list;
    forall i, j | 0 <= i < j < |l|
      ensures Precedes(routes, l[i], l[j])
    {
      assert l[j] == list[j - 1] && l[j] in list;
      assert i > 0 ==> l[i] == list[i - 1];
    }
  }

  lemma HeadPrecedes(routes: seq<Route>, a: seq<nat>, b: seq<nat>)
    requires Sorted(routes) && Mergeable(routes, a, b) && a != [] && b != []
    ensures routes[a[0]].priority >= routes[b[0]].priority ==>
              forall m: nat :: m in a || m in b ==> m < |routes| && Precedes(routes, a[0], m)
    ensures routes[a[0]].priority < routes[b[0]].priority ==>
              forall m: nat :: m in a || m in b ==> m < |routes| && Precedes(routes, b[0], m)
  {
    forall m: nat | m in a
      ensures m < |routes| && a[0] <= m && routes[m].entrypoints != [] && routes[a[0]].priority >= routes[m].priority
    {
      var i :| 0 <= i < |a| && a[i] == m;
    }
    forall m: nat | m in b
      ensures m < |routes| && b[0] <= m && routes[m].entrypoints == [] && routes[b[0]].priority >= routes[m].priority
    {
      var i :| 0 <= i < |b| && b[i] == m;
    }
  }

  lemma {:induction false} MergedInOrder(routes: seq<Route>, a: seq<nat>, b: seq<nat>)
    requires Sorted(routes) && Mergeable(routes, a, b)
    ensures Within(Merged(routes, a, b), |routes|) && InOrder(routes, Merged(routes, a, b))
    decreases |a| + |b|
  {
    if a == [] {
      AscendingInOrder(routes, b, true);
    } else if b == [] {
      AscendingInOrder(routes, a, false);
    } else {
      HeadPrecedes(routes, a, b);
      if routes[a[0]].priority >= routes[b[0]].priority {
        MergedMember(routes, a[1..], b);
        MergedInOrder(routes, a[1..], b);
        InOrderCons(routes, a[0], Merged(routes, a[1..], b));
      } else {
        MergedMember(routes, a, b[1..]);
        MergedInOrder(routes, a, b[1..]);
        InOrderCons(routes, b[0], Merged(routes, a, b[1..]));
      }
    }
  }

  lemma EntryLists(routes: seq<Route>, entrypoint: string)
    ensures Mergeable(routes, Numbers(AllEntrypoints(routes), |routes|, entrypoint), CatchAll(routes, |routes|))
  {
    NumbersMember(AllEntrypoints(routes), |routes|, entrypoint);
    CatchAllMember(routes, |routes|);
    CatchAllAscends(routes, |routes|);
    var a, b := Numbers(AllEntrypoints(routes), |routes|, entrypoint), CatchAll(routes, |routes|);
    assert forall i :: 0 <= i < |a| ==> a[i] in a;
    assert forall i :: 0 <= i < |b| ==> b[i] in b;
  }

  /** The candidates of an entrypoint. */
  ghost function Candidates(routes: seq<Route>, entrypoint: string): (list: seq<nat>) {
    EntryLists(routes, entrypoint);
    Merged(routes, Numbers(AllEntrypoints(routes), |routes|, entrypoint), CatchAll(routes, |routes|))
  }

  /** The candidates are all routes that are bound to the entrypoint or to none, in order. */
  lemma CandidatesAreBound(routes: seq<Route>, entrypoint: string)
    requires Sorted(routes)
    ensures var list := Candidates(routes, entrypoint); Within(list, |routes|) && InOrder(routes, list)
    ensures forall m: nat :: m in Candidates(routes, entrypoint) <==> m < |routes| && Bound(routes[m], entrypoint)
  {
    var a, b := Numbers(AllEntrypoints(routes), |routes|, entrypoint), CatchAll(routes, |routes|);
    EntryLists(routes, entrypoint);
    MergedMember(routes, a, b);
    MergedInOrder(routes, a, b);
    NumbersMember(AllEntrypoints(routes), |routes|, entrypoint);
    CatchAllMember(routes, |routes|);
  }

  // ---- Answering a request ----

  predicate Hit(routes: seq<Route>, entrypoint: string, q: Request, i: nat) {
    i < |routes| && Bound(routes[i], entrypoint) && Matches(routes[i].rule, q)
  }

  /** The route a request gets: the first of the matching routes that are indexed by host, and if there
      is none, the first of the others in the order of candidates. */
  ghost predicate Answer(routes: seq<Route>, entrypoint: string, q: Request, r: Option<nat>) {
    match r
    case None => forall i: nat :: !Hit(routes, entrypoint, q, i)
    case Some(w) =>
      && Hit(routes, entrypoint, q, w)
      && forall i: nat :: Hit(routes, entrypoint, q, i) ==>
           if routes[w].hostIndexed then !routes[i].hostIndexed || w <= i
           else !routes[i].hostIndexed && Precedes(routes, w, i)
  }

  ghost predicate Consistent(routes: seq<Route>) {
    Sorted(routes) && forall i :: 0 <= i < |routes| ==> (routes[i].hostIndexed <==> Hosts(routes[i].rule) != [])
  }

  /** A matching route that is indexed by host is listed under the host of the request. */
  lemma IndexedHitIsListed(routes: seq<Route>, entrypoint: string, q: Request, i: nat)
    requires Consistent(routes) && Hit(routes, entrypoint, q, i) && routes[i].hostIndexed
    ensures q.host.Some? && i in Numbers(AllHosts(routes), |routes|, Lower(q.host.value))
  {
    var h := Hosts(routes[i].rule)[0];
    HostsAreNecessary(routes[i].rule, q, h);
    assert HostKeys(routes[i])[0] == Lower(h);
    NumbersMember(AllHosts(routes), |routes|, Lower(q.host.value));
  }

  lemma ListedIsIndexed(routes: seq<Route>, key: string, i: nat)
    requires Consistent(routes) && i in Numbers(AllHosts(routes), |routes|, key)
    ensures i < |routes| && routes[i].hostIndexed
  {
    NumbersMember(AllHosts(routes), |routes|, key);
  }

  lemma AnswerByHost(routes: seq<Route>, entrypoint: string, q: Request, list: seq<nat>, k: nat)
    requires Consistent(routes) && q.host.Some? && k < |list|
    requires list == Numbers(AllHosts(routes), |routes|, Lower(q.host.value))
    requires Hit(routes, entrypoint, q, list[k])
    requires forall j :: 0 <= j < k ==> !Hit(routes, entrypoint, q, list[j])
    ensures Answer(routes, entrypoint, q, Some(list[k]))
  {
    NumbersMember(AllHosts(routes), |routes|, Lower(q.host.value));
    ListedIsIndexed(routes, Lower(q.host.value), list[k]);
    forall i: nat | Hit(routes, entrypoint, q, i) && routes[i].hostIndexed
      ensures list[k] <= i
    {
      IndexedHitIsListed(routes, entrypoint, q, i);
      var j :| 0 <= j < |list| && list[j] == i;
      assert list[k..][j - k] == i;
      FirstIsLeast(list, k, i);
    }
  }

  lemma FirstIsLeast(list: seq<nat>, k: nat, i: nat)
    requires Ascending(list) && k < |list| && i in list[k..]
    ensures list[k] <= i
  {
    var j :| 0 <= j < |list[k..]| && list[k..][j] == i;
    assert list[k + j] == i;
  }

  lemma NoneByHost(routes: seq<Route>, entrypoint: string, q: Request, list: seq<nat>)
    requires Consistent(routes)
    requires q.host.Some? ==> list == Numbers(AllHosts(routes), |routes|, Lower(q.host.value))
    requires q.host.Some? ==> forall j :: 0 <= j < |list| ==> !Hit(routes, entrypoint, q, list[j])
    ensures forall i: nat :: Hit(routes, entrypoint, q, i) ==> !routes[i].hostIndexed
  {
    forall i: nat | Hit(routes, entrypoint, q, i)
      ensures !routes[i].hostIndexed
    {
      if routes[i].hostIndexed {
        IndexedHitIsListed(routes, entrypoint, q, i);
      }
    }
  }

  lemma AnswerByScan(routes: seq<Route>, entrypoint: string, q: Request, k: nat)
    requires Consistent(routes)
    requires forall i: nat :: Hit(routes, entrypoint, q, i) ==> !routes[i].hostIndexed
    requires var list := Candidates(routes, entrypoint);
             k <= |list| && forall j :: 0 <= j < k ==> !Hit(routes, entrypoint, q, list[j])
    ensures var list := Candidates(routes, entrypoint);
            && (k == |list| ==> Answer(routes, entrypoint, q, None))
            && (k < |list| && Hit(routes, entrypoint, q, list[k]) ==> Answer(routes, entrypoint, q, Some(list[k])))
  {
    var list := Candidates(routes, entrypoint);
    CandidatesAreBound(routes, entrypoint);
    forall i: nat | Hit(routes, entrypoint, q, i)
      ensures k < |list| && Precedes(routes, list[k], i)
    {
      var j :| 0 <= j < |list| && list[j] == i;
    }
  }

  // ---- The answer over the configuration ----

  /** Configuration `c` is bound to the entrypoint or to none, and its rule parses and matches. */
  predicate Eligible(configs: seq<RouterConfig>, valid: string -> bool, entrypoint: string, q: Request, c: nat) {
    && c < |configs|
    && (configs[c].entrypoints == [] || entrypoint in configs[c].entrypoints)
    && match RuleParser.Parse(configs[c].rule, valid)
       case Ok(rule) => Matches(rule, q)
       case Err(_) => false
  }

  /** The rule insists on a host. */
  predicate NeedsHost(c: RouterConfig, valid: string -> bool) {
    match RuleParser.Parse(c.rule, valid)
    case Ok(rule) => Hosts(rule) != []
    case Err(_) => false
  }

  /** By priority; among equals, bound to some entrypoint before bound to none; and then as given. */
  predicate GoesFirst(configs: seq<RouterConfig>, c: nat, d: nat)
    requires c < |configs| && d < |configs|
  {
    if configs[c].priority == configs[d].priority && (configs[c].entrypoints == []) != (configs[d].entrypoints == [])
    then configs[d].entrypoints == []
    else Ranks(configs, c, d)
  }

  /** When both match, `d` yields to `c`: rules that insist on a host go before those that do not. */
  predicate Yields(configs: seq<RouterConfig>, valid: string -> bool, c: nat, d: nat)
    requires c < |configs| && d < |configs|
  {
    if NeedsHost(configs[c], valid) then !NeedsHost(configs[d], valid) || Ranks(configs, c, d)
    else !NeedsHost(configs[d], valid) && GoesFirst(configs, c, d)
  }

  /** The configuration whose route a request gets. */
  ghost predicate Chosen(configs: seq<RouterConfig>, valid: string -> bool, entrypoint: string, q: Request, r: Option<nat>) {
    match r
    case None => forall c: nat :: !Eligible(configs, valid, entrypoint, q, c)
    case Some(w) =>
      && Eligible(configs, valid, entrypoint, q, w)
      && forall c: nat :: Eligible(configs, valid, entrypoint, q, c) && c != w ==>
           Yields(configs, valid, w, c)
  }

  lemma HitIsEligible(configs: seq<RouterConfig>, valid: string -> bool, routes: seq<Route>, origin: seq<nat>,
                      entrypoint: string, q: Request, i: nat)
    requires BuiltFrom(configs, valid, routes, origin) && Consistent(routes) && i < |routes|
    ensures Hit(routes, entrypoint, q, i) <==> Eligible(configs, valid, entrypoint, q, origin[i])
    ensures routes[i].hostIndexed <==> NeedsHost(configs[origin[i]], valid)
  {
    assert Fulfils(routes[i], configs[origin[i]], valid);
  }

  lemma EligibleIsHit(configs: seq<RouterConfig>, valid: string -> bool, routes: seq<Route>, origin: seq<nat>,
                      entrypoint: string, q: Request, c: nat) returns (i: nat)
    requires BuiltFrom(configs, valid, routes, origin) && Consistent(routes) && Eligible(configs, valid, entrypoint, q, c)
    ensures i < |routes| && origin[i] == c && Hit(routes, entrypoint, q, i)
    ensures routes[i].hostIndexed <==> NeedsHost(configs[c], valid)
  {
    assert Parses(configs[c], valid);
    i :| 0 <= i < |origin| && origin[i] == c;
    HitIsEligible(configs, valid, routes, origin, entrypoint, q, i);
  }

  /** The answer over the routes is the answer over the configuration they were built from. */
  lemma AnswerIsChosen(configs: seq<RouterConfig>, valid: string -> bool, routes: seq<Route>, origin: seq<nat>,
                       entrypoint: string, q: Request, r: Option<nat>)
    requires BuiltFrom(configs, valid, routes, origin) && Consistent(routes) && Answer(routes, entrypoint, q, r)
    ensures r.None? ==> Chosen(configs, valid, entrypoint, q, None)
    ensures r.Some? ==> r.value < |origin| && Chosen(configs, valid, entrypoint, q, Some(origin[r.value]))
  {
    if r.Some? {
      HitIsEligible(configs, valid, routes, origin, entrypoint, q, r.value);
    }
    forall c: nat | Eligible(configs, valid, entrypoint, q, c) && (r.Some? ==> c != origin[r.value])
      ensures r.Some? && Yields(configs, valid, origin[r.value], c)
    {
      var i := EligibleIsHit(configs, valid, routes, origin, entrypoint, q, c);
      var w := r.value;
      assert Fulfils(routes[w], configs[origin[w]], valid) && Fulfils(routes[i], configs[c], valid);
      assert w < i ==> Ranks(configs, origin[w], origin[i]);
    }
  }

  class Router {
    var routes: seq<Route>
    var candidatesByEp: Index
    var catchAll: seq<nat>
    var hostIndex: Index

    /** The configuration the router was built from, and the place there of each route. */
    ghost const configs: seq<RouterConfig>
    ghost const valid: string -> bool
    ghost const origin: seq<nat>

    ghost predicate Valid()
      reads this
    {
      && Consistent(routes)
      && BuiltFrom(configs, valid, routes, origin)
      && Holds(hostIndex, AllHosts(routes), |routes|)
      && catchAll == CatchAll(routes, |routes|)
      && forall ep :: (if ep in candidatesByEp then candidatesByEp[ep] else catchAll) == Candidates(routes, ep)
    }

    constructor (configs: seq<RouterConfig>, valid: string -> bool)
      ensures Valid() && this.configs == configs && this.valid == valid
      ensures var parsed := ParsedTo(configs, |configs|, valid);
              var sorted := SortedTo(parsed, |parsed|);
              |routes| == |sorted| && forall i :: 0 <= i < |sorted| ==> routes[i] == Marked(sorted[i])
    {
      var parsed := ParseRoutes(configs, valid);
      var sorted := SortedTo(parsed, |parsed|);
      SortSorts(parsed, |parsed|);
      var marked, hosts := BuildHostIndex(sorted);
      assert AllHosts(marked) == AllHosts(sorted);
      var eps, unbound := BuildEntrypointIndex(marked);
      ListsWithin(marked, eps);
      var merged := MergeAll(marked, eps, unbound);
      CandidatesFound(marked, eps, merged);
      ghost var places := Places(configs, valid, parsed, sorted, marked);
      this.configs, this.valid, origin := configs, valid, places;
      routes, hostIndex, catchAll, candidatesByEp := marked, hosts, unbound, merged;
    }

    /** The first route in a list from the host index that is bound to the entrypoint and matches. */
    method CheckListed(listed: seq<nat>, entrypoint: string, q: Request) returns (r: Option<nat>)
      requires Within(listed, |routes|)
      ensures match r
              case None => forall j :: 0 <= j < |listed| ==> !Hit(routes, entrypoint, q, listed[j])
              case Some(k) => k < |listed| && Hit(routes, entrypoint, q, listed[k])
                              && forall j :: 0 <= j < k ==> !Hit(routes, entrypoint, q, listed[j])
    {
      for k := 0 to |listed|
        invariant forall j :: 0 <= j < k ==> !Hit(routes, entrypoint, q, listed[j])
      {
        var route := routes[listed[k]];
        if Bound(route, entrypoint) && Matches(route.rule, q) {
          return Some(k);
        }
      }
      return None;
    }

    /** The first candidate that matches, passing over those indexed by host. */
    method CheckCandidates(candidates: seq<nat>, q: Request) returns (r: Option<nat>)
      requires Within(candidates, |routes|)
      ensures match r
              case None => forall j :: 0 <= j < |candidates| ==> !MatchesUnindexed(routes[candidates[j]], q)
              case Some(k) => k < |candidates| && MatchesUnindexed(routes[candidates[k]], q)
                              && forall j :: 0 <= j < k ==> !MatchesUnindexed(routes[candidates[j]], q)
    {
      for k := 0 to |candidates|
        invariant forall j :: 0 <= j < k ==> !MatchesUnindexed(routes[candidates[j]], q)
      {
        var route := routes[candidates[k]];
        if route.hostIndexed {
          continue;
        }
        if Matches(route.rule, q) {
          return Some(k);
        }
      }
      return None;
    }

    /** Find the route of a request. */
    method MatchRequest(entrypoint: string, q: Request) returns (r: Option<nat>)
      requires Valid()
      ensures Answer(routes, entrypoint, q, r)
      ensures r.None? ==> Chosen(configs, valid, entrypoint, q, None)
      ensures r.Some? ==> r.value < |routes| == |origin| && Chosen(configs, valid, entrypoint, q, Some(origin[r.value]))
    {
      var listed := if q.host.Some? then Entry(hostIndex, Lower(q.host.value)) else [];
      ListedWithin(routes, q, listed);
      var k := CheckListed(listed, entrypoint, q);
      if k.Some? {
        AnswerByHost(routes, entrypoint, q, listed, k.value);
        AnswerIsChosen(configs, valid, routes, origin, entrypoint, q, Some(listed[k.value]));
        return Some(listed[k.value]);
      }
      NoneByHost(routes, entrypoint, q, listed);
      var candidates := if entrypoint in candidatesByEp then candidatesByEp[entrypoint] else catchAll;
      CandidatesAreBound(routes, entrypoint);
      k := CheckCandidates(candidates, q);
      CandidateHits(routes, entrypoint, q);
      AnswerByScan(routes, entrypoint, q, if k.Some? then k.value else |candidates|);
      r := if k.Some? then Some(candidates[k.value]) else None;
      AnswerIsChosen(configs, valid, routes, origin, entrypoint, q, r);
    }
  }

  predicate MatchesUnindexed(route: Route, q: Request) {
    !route.hostIndexed && Matches(route.rule, q)
  }

  lemma ListedWithin(routes: seq<Route>, q: Request, listed: seq<nat>)
    requires listed == if q.host.Some? then Numbers(AllHosts(routes), |routes|, Lower(q.host.value)) else []
    ensures Within(listed, |routes|)
  {
    if q.host.Some? {
      NumbersMember(AllHosts(routes), |routes|, Lower(q.host.value));
      assert forall i :: 0 <= i < |listed| ==> listed[i] in listed;
    }
  }

  lemma CandidateHits(routes: seq<Route>, entrypoint: string, q: Request)
    requires Sorted(routes) && forall i: nat :: Hit(routes, entrypoint, q, i) ==> !routes[i].hostIndexed
    ensures var list := Candidates(routes, entrypoint);
            Within(list, |routes|) && forall j :: 0 <= j < |list| ==>
              (Hit(routes, entrypoint, q, list[j]) <==> MatchesUnindexed(routes[list[j]], q))
  {
    CandidatesAreBound(routes, entrypoint);
    var list := Candidates(routes, entrypoint);
    assert forall j :: 0 <= j < |list| ==> list[j] in list;
  }

  lemma ListsWithin(routes: seq<Route>, index: Index)
    requires Holds(index, AllEntrypoints(routes), |routes|)
    ensures AllWithin(index, |routes|) && Within(CatchAll(routes, |routes|), |routes|)
  {
    forall key | key in index
      ensures Within(index[key], |routes|)
    {
      assert index[key] == Entry(index, key) == Numbers(AllEntrypoints(routes), |routes|, key);
      EntryLists(routes, key);
    }
    EntryLists(routes, []);
  }

  lemma CandidatesFound(routes: seq<Route>, index: Index, merged: Index)
    requires Holds(index, AllEntrypoints(routes), |routes|) && merged.Keys == index.Keys
    requires AllWithin(index, |routes|) && Within(CatchAll(routes, |routes|), |routes|)
    requires forall key :: key in index ==> merged[key] == Merged(routes, index[key], CatchAll(routes, |routes|))
    ensures forall ep :: (if ep in merged then merged[ep] else CatchAll(routes, |routes|)) == Candidates(routes, ep)
  {
    forall ep
      ensures (if ep in merged then merged[ep] else CatchAll(routes, |routes|)) == Candidates(routes, ep)
    {
      assert Entry(index, ep) == Numbers(AllEntrypoints(routes), |routes|, ep);
    }
  }

  // ---- What the answer means ----

  /** There is one answer. */
  lemma AnswerIsUnique(routes: seq<Route>, entrypoint: string, q: Request, r: Option<nat>, s: Option<nat>)
    requires Answer(routes, entrypoint, q, r) && Answer(routes, entrypoint, q, s)
    ensures r == s
  {
    if r.Some? {
      assert Hit(routes, entrypoint, q, r.value);
    }
    if s.Some? {
      assert Hit(routes, entrypoint, q, s.value);
    }
  }

  /** One configuration is chosen. */
  lemma ChosenIsUnique(configs: seq<RouterConfig>, valid: string -> bool, entrypoint: string, q: Request,
                       r: Option<nat>, s: Option<nat>)
    requires Chosen(configs, valid, entrypoint, q, r) && Chosen(configs, valid, entrypoint, q, s)
    ensures r == s
  {
    if r.Some? {
      assert Eligible(configs, valid, entrypoint, q, r.value);
    }
    if s.Some? {
      assert Eligible(configs, valid, entrypoint, q, s.value);
    }
  }

  /** A plain scan of the routes from `i` on. */
  function Scan(routes: seq<Route>, entrypoint: string, q: Request, i: nat): (r: Option<nat>)
    requires i <= |routes|
    ensures r.Some? ==> i <= r.value && Hit(routes, entrypoint, q, r.value)
    ensures forall k: nat :: i <= k && Hit(routes, entrypoint, q, k) ==> r.Some? && r.value <= k
    decreases |routes| - i
  {
    if i == |routes| then None
    else if Hit(routes, entrypoint, q, i) then Some(i)
    else Scan(routes, entrypoint, q, i + 1)
  }

  /** A matching route indexed by host ranks at least as high as `u`, or none matches. */
  ghost predicate Outdone(routes: seq<Route>, entrypoint: string, q: Request, u: nat)
    requires u < |routes|
  {
    || (forall h: nat :: Hit(routes, entrypoint, q, h) ==> !routes[h].hostIndexed)
    || (exists h: nat :: Hit(routes, entrypoint, q, h) && routes[h].hostIndexed && routes[h].priority >= routes[u].priority)
  }

  /** The indexes answer a request exactly when a plain scan does, and with a route of the same
      priority exactly when no matching route outside the host index outranks every matching route in
      it. */
  lemma HighestPriorityExactly(routes: seq<Route>, entrypoint: string, q: Request, r: Option<nat>)
    requires Consistent(routes) && Answer(routes, entrypoint, q, r)
    ensures r.Some? <==> Scan(routes, entrypoint, q, 0).Some?
    ensures r.Some? ==>
              (routes[r.value].priority == routes[Scan(routes, entrypoint, q, 0).value].priority
          <==> forall u: nat :: Hit(routes, entrypoint, q, u) && !routes[u].hostIndexed ==> Outdone(routes, entrypoint, q, u))
  {
    var s := Scan(routes, entrypoint, q, 0);
    if r.Some? {
      var w, v := r.value, s.value;
      assert Hit(routes, entrypoint, q, w) && Hit(routes, entrypoint, q, v) && v <= w;
      if routes[w].priority != routes[v].priority {
        assert !Outdone(routes, entrypoint, q, v);
      } else if routes[w].hostIndexed {
        forall u: nat | Hit(routes, entrypoint, q, u) && !routes[u].hostIndexed
          ensures Outdone(routes, entrypoint, q, u)
        {
          assert v <= u;
        }
      }
    }
  }

  ghost predicate SomeIndexedHit(routes: seq<Route>, entrypoint: string, q: Request) {
    exists h: nat :: Hit(routes, entrypoint, q, h) && routes[h].hostIndexed
  }

  /** The first match `v` of a plain scan is not set back: neither by matches in the host index, nor by
      bound matches of its own priority. */
  ghost predicate NotSetBack(routes: seq<Route>, entrypoint: string, q: Request, v: nat)
    requires v < |routes|
  {
    if SomeIndexedHit(routes, entrypoint, q) then routes[v].hostIndexed
    else
      || routes[v].entrypoints != []
      || forall i: nat :: Hit(routes, entrypoint, q, i) && routes[i].priority == routes[v].priority ==>
           routes[i].entrypoints == []
  }

  /** The indexes answer with the very route a plain scan finds exactly when that route is in the host
      index if any match is, and otherwise is bound, or no bound match has its priority. */
  lemma SameRouteExactly(routes: seq<Route>, entrypoint: string, q: Request, r: Option<nat>)
    requires Consistent(routes) && Answer(routes, entrypoint, q, r) && r.Some?
    ensures var s := Scan(routes, entrypoint, q, 0);
            s.Some? && (r == s <==> NotSetBack(routes, entrypoint, q, s.value))
  {
    var s := Scan(routes, entrypoint, q, 0);
    var w, v := r.value, s.value;
    assert Hit(routes, entrypoint, q, w) && Hit(routes, entrypoint, q, v);
    if NotSetBack(routes, entrypoint, q, v) {
      assert Answer(routes, entrypoint, q, s);
      AnswerIsUnique(routes, entrypoint, q, r, s);
    }
  }

  /** A catch-all of priority 10 loses to a host rule of priority 1. */
  lemma HostRuleWins(q: Request)
    requires q.host == Some("a") && q.path == "/"
    ensures var routes := [Route("p", [], PathPrefix("/"), "s", [], 10, false), Route("h", [], Host("a"), "t", [], 1, true)];
            Consistent(routes) && Answer(routes, "web", q, Some(1)) && Scan(routes, "web", q, 0) == Some(0)
  {
    var routes := [Route("p", [], PathPrefix("/"), "s", [], 10, false), Route("h", [], Host("a"), "t", [], 1, true)];
    assert Hit(routes, "web", q, 0) && Hit(routes, "web", q, 1);
  }
}
