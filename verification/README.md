# TrafficCop in Dafny

A model of the parts of the TrafficCop reverse proxy whose behaviour is hardest to see from the code, with
proofs over every input, every run or every interleaving. Objects that the program updates in place are
classes whose methods are proved against functions; what the program promises is then proved about those
functions.

| file | what it models |
|---|---|
| `SmoothWeighted.dfy`, `ServiceRouter.dfy`, `InterleavedRouter.dfy` | smooth weighted round-robin, the service router with 64-bit slots, and the same router under any interleaving of callers |
| `WeightedBalancer.dfy` | the same algorithm over servers whose health changes |
| `RoundRobin.dfy` | the HTTP and TCP/UDP rotations over a wrapping 64-bit counter |
| `PassiveHealth.dfy`, `HealthChanges.dfy` | passive health checks and the balancer flags that follow them, one response at a time and under any interleaving |
| `LeaderElection.dfy` | the lease scripts and leader election by any number of nodes |
| `LocalStore.dfy` | the in-memory store, and when it can stand in for the shared one |
| `RateWindow.dfy` | the sliding-window rate limit script |
| `TokenBucket.dfy` | the token bucket, alone and under any interleaving |
| `Rules.dfy`, `RuleLaws.dfy`, `RuleParser.dfy`, `RuleSyntax.dfy` | routing rules and their laws, their parser and their grammar |
| `Router.dfy` | route indexes, candidate merging and request matching |
| `ClientHello.dfy` | the search for the server name in a TLS client hello |
| `Base64.dfy`, `Der.dfy` | the hand-written base64 coders and the DER encoder behind signing requests |
| `Wrappers.dfy`, `Arithmetic.dfy`, `Words.dfy`, `Sums.dfy`, `Bytes.dfy`, `Sequences.dfy` | shared definitions |

Clocks, random numbers, regular expressions, UTF-8 validation, header lookup and signing are parameters.
Integers are unbounded except where a width matters: the router's slots are a wrapping 64-bit
newtype, the counters of the rotations, the token bucket and the response statistics wrap at 2^64 (as arithmetic
does in a release build), and the base64 buffers at 2^32.

Where the program and its own documentation differ, the model follows the program:

- The token bucket divides by a thousand twice, so it earns a thousandth of the documented average
  (`src/middleware/builtin/rate_limit.rs:60-62`); `EarnedPerSecond` states this, and the documented bound still
  holds (`AdmittedAsDocumented`).
- `match_request` is documented to find the highest-priority route; routes indexed by host go first whatever
  their priority. `HighestPriorityExactly` says when the two agree and `HostRuleWins` is a request where they
  do not.
- The store keeps leases in whole seconds, so a time to live with a fraction of a second runs out early;
  `ExclusiveExactlyWhenSafe` and `AgreesExactlyOnWholeSeconds` give the exact conditions.
- The server name search takes a slice by a length it has not compared with the data, which panics; the search
  is otherwise written to answer "no name". `LeavesDataExactly` says when it happens and
  `LeavesDataOnHollowName` is a message on which it does in every buffer the program passes.
- A health change is applied to the balancer after the checker's lock is released, so two changes of one backend can
  be applied in the wrong order and leave its flag wrong. `FollowsInOrderExactly` and `FollowsInAnyOrderExactly` give
  the exact conditions.
- Sessions are stored under the service's name, a colon and the session's, so two services can share keys;
  `ServicesShareKeysExactly` says which.
- The rotations are meant to return a healthy server whenever there is one; where the 64-bit counter wraps in the
  middle of a turn they can miss it. `HealthyFoundExactly` gives the exact condition.
- The rate limit script stores requests of one millisecond that draw the same random number once, so the limit can
  be exceeded; `NeverOverAdmitsExactly` gives the exact condition.
- DER lengths are written in at most two octets, so requests of 65536 octets and more do not read back;
  `CsrReadsBackExactly` gives the exact condition.

## Model

| member | source | states |
|---|---|---|
| `SmoothWeighted.BestIsFirstMax` | src/service/weighted.rs:59-71 | the selected entry is the leftmost maximum of the active entries, and there is none only when nothing is active |
| `SmoothWeighted.SomePick` | src/balancer/weighted.rs:58-97 | a pool of positive total always yields a pick, of an active entry |
| `SmoothWeighted.Accounting` | src/service/weighted.rs:45-77 | after any number of picks every current weight is its start, plus its share per pick, minus the total per pick of its own |
| `SmoothWeighted.StepConserves` | src/service/weighted.rs:59-76 | one pick leaves the sum of all current weights, and the sum over active entries, unchanged |
| `SmoothWeighted.RunConserves` | src/service/weighted.rs:45-77 | any number of picks leaves both sums unchanged |
| `SmoothWeighted.PicksAddUp` | src/service/weighted.rs:45-77 | the picks of all entries add up to the number of picks made |
| `SmoothWeighted.RunKeepsFloor` | src/service/weighted.rs:45-77 | a lower bound on current weights that the sum supports is never broken, however long the run |
| `SmoothWeighted.NeverAhead` | src/service/weighted.rs:45-77 | after k picks no entry has more than k times its weight over the total, rounded up |
| `SmoothWeighted.ExactShares` | src/service/weighted.rs:45-77 | whole rounds give each entry exactly its weight per round, and all current weights are zero again |
| `SmoothWeighted.PicksArePeriodic` | src/service/weighted.rs:45-77 | the sequence of picks repeats with the total weight as period |
| `SmoothWeighted.WeightRange` | src/service/weighted.rs:59-74 | current weights stay strictly between minus the total and the total times the number of entries, in the middle of a pick too |
| `SmoothWeighted.RangeFitsI64` | src/service/weighted.rs:20-41 | fewer than 2^15 services with 32-bit weights keep that range inside 64 bits |
| `ServiceRouter.RunFits` | src/service/weighted.rs:59-74 | no addition or subtraction of any pick of any run overflows a 64-bit slot |
| `ServiceRouter.WrappingNeverShows` | src/service/weighted.rs:45-77 | when the weights fit, every pick in wrapping arithmetic is the pick of the unbounded algorithm |
| `ServiceRouter.TrafficIsSplitByWeight` | src/service/weighted.rs:45-77 | no service is ahead of its share rounded up, each gets exactly its weight per round, and rounds repeat |
| `ServiceRouter.WeightedServiceRouter.constructor` | src/service/weighted.rs:20-41 | for every configuration, a new router starts at the beginning of the pick sequence |
| `ServiceRouter.WeightedServiceRouter.NextService` | src/service/weighted.rs:45-77 | for every configuration the n-th call returns the n-th pick of the algorithm in wrapping arithmetic, and when the weights fit 64 bits that is the n-th pick of the sequence whose fairness is proved; none and one service are answered directly |
| `ServiceRouter.WeightedServiceRouter.Select` | src/service/weighted.rs:59-76 | the two phases return the pick of this call and leave the slots at the state after it, for every configuration |
| `ServiceRouter.WeightedServiceRouter.AddWeights` | src/service/weighted.rs:59-71 | the wrapping add loop raises every slot by its weight and finds the leftmost maximum |
| `InterleavedRouter.MoveKeepsSlot` | src/service/weighted.rs:59-76 | every atomic step of any caller keeps a slot equal to its weight per call that has passed it less the total per pick |
| `InterleavedRouter.MoveKeepsSum` | src/service/weighted.rs:59-76 | every atomic step keeps the slots' sum equal to what unfinished calls have added |
| `InterleavedRouter.EverySchedule` | src/service/weighted.rs:59-76 | both hold after every schedule of any number of callers |
| `InterleavedRouter.QuietAccounting` | src/service/weighted.rs:59-76 | whenever no call is in flight, the slots sum to zero and each is its earnings less its charges, whatever the interleaving |
| `InterleavedRouter.UninterruptedCall` | src/service/weighted.rs:45-77 | a call that nobody interrupts does what one step of the sequential algorithm does |
| `WeightedBalancers.WeightedBalancer.constructor` | src/balancer/weighted.rs:21-44 | all servers start healthy with the total of their weights |
| `WeightedBalancers.WeightedBalancer.RecomputeTotalWeight` | src/balancer/weighted.rs:46-54 | the total is the weight of the healthy servers |
| `WeightedBalancers.WeightedBalancer.MarkHealthy` | src/balancer/weighted.rs:99-107 | only that server's health changes, and the total follows |
| `WeightedBalancers.WeightedBalancer.MarkUnhealthy` | src/balancer/weighted.rs:109-114 | only that server's health changes, and the total follows |
| `WeightedBalancers.WeightedBalancer.NextServer` | src/balancer/weighted.rs:58-97 | a pick is one step of the algorithm over the healthy servers and returns a healthy one whenever they carry weight; no slot leaves 64 bits before, during or after it when the number of servers times their weight is below 2^63 |
| `WeightedBalancers.WeightedBalancer.AddWeights` | src/balancer/weighted.rs:69-86 | the add loop raises every healthy server by its weight and finds the leftmost maximum among them |
| `WeightedBalancers.WeightedBalancer.WeightsStayWithin` | src/balancer/weighted.rs:46-114 | in every valid state each current weight is within the weight of all servers times the number of others |
| `WeightBounds.StepKeepsBounded` | src/balancer/weighted.rs:58-97 | a pick from any healthy set keeps every group of k of n servers at or below k times n - k times the weight of all |
| `WeightBounds.EveryHistoryWithin` | src/balancer/weighted.rs:46-114 | after every history of picks and health changes the weights sum to zero and each is within the weight of all servers times the number of others |
| `WeightBounds.PickFitsI64` | src/balancer/weighted.rs:69-93 | from any such state every slot is a 64-bit number before a pick, between its add and its subtract, and after it |
| `WeightedBalancers.StretchAccounting` | src/balancer/weighted.rs:58-97 | while health is fixed, a healthy server's weight changes by its share less its charges and an unhealthy one's not at all |
| `WeightedBalancers.DeviationBounded` | src/balancer/weighted.rs:58-97 | whatever history came before, while health is fixed a healthy server's picks stay for ever within a constant of its exact share that depends on the weights only |
| `WeightedBalancers.ZeroWeightIdleWhenStable` | src/balancer/weighted.rs:58-97 | without health changes a server of weight zero is never picked |
| `WeightedBalancers.ZeroWeightPickedExactly` | src/balancer/weighted.rs:58-114 | for all weights: some history of picks and health changes sends a request to a first server of weight zero, while the healthy servers carry weight, exactly when at least two servers have positive weight |
| `RoundRobin.RoundRobinBalancer.constructor` | src/balancer/round_robin.rs:14-21 | a new balancer sends each counter value to the server of its own place |
| `RoundRobin.RoundRobinBalancer.NextServer` | src/balancer/round_robin.rs:25-44 | the scan returns the first healthy server from the old counter on and moves the wrapping counter by one |
| `RoundRobin.RoundRobinBalancer.Mark` | src/balancer/round_robin.rs:46-56 | only the named server changes; once marked down it gets no request while another is healthy, wherever the wrap does not show |
| `RoundRobin.HttpPickSeeks` | src/balancer/round_robin.rs:25-44 | where a turn does not cross the wrap, or the number of servers divides 2^64, a pick is the next healthy position of the endless ring |
| `RoundRobin.LandsInGap` | src/balancer/round_robin.rs:25-44 | the counters of a turn that lead to a server are exactly its own and those of the unhealthy run before it |
| `RoundRobin.HttpFairness` | src/balancer/round_robin.rs:25-44 | a full round picks each healthy server once, plus once for each unhealthy server in the run just before it, when its turns do not cross the wrap or the number of servers divides 2^64 |
| `RoundRobin.TurnVisitsEach` | src/tcp/service.rs:76-103 | a full turn from anywhere visits every healthy server exactly once and no other |
| `RoundRobin.TcpService.HealthyCount` | src/tcp/service.rs:81-82 | the count is the number of healthy servers |
| `RoundRobin.TcpService.NextServer` | src/tcp/service.rs:76-103 | the retry loop returns what the search over the wrapping counter finds and leaves the counter behind it |
| `RoundRobin.TcpPickSeeks` | src/tcp/service.rs:76-103 | with a healthy server ahead of the wrap, or a number of servers that divides 2^64, a call returns the next healthy one and stops right behind it, so the fallback is never reached |
| `RoundRobin.TcpCallsTally` | src/tcp/service.rs:76-103 | after k calls the counter has passed exactly k healthy positions, those of the servers returned, under the same condition on one turn |
| `RoundRobin.TcpFairness` | src/udp/service.rs:78-105 | as many calls as there are healthy servers return each of them exactly once and no other, under the same condition on one turn |
| `RoundRobin.WrapIsHarmlessExactly` | src/balancer/round_robin.rs:25-44 | with everyone healthy, a round serves each server once exactly when it does not cross the wrap or the number of servers divides 2^64 |
| `RoundRobin.AllDownServedExactly` | src/balancer/round_robin.rs:25-44 | with everyone down, a round of HTTP picks serves each server once exactly when it does not cross the wrap or the number of servers divides 2^64 |
| `RoundRobin.TcpAllDown` | src/tcp/service.rs:76-103 | with everyone down, every TCP call of any run returns the first server and leaves the counter alone |
| `RoundRobin.TcpMissesTurn` | src/tcp/service.rs:89-102 | a TCP call whose turn misses every healthy server, as it can across the wrap, returns the first server and leaves the counter a full turn ahead |
| `RoundRobin.HealthyFoundExactly` | src/balancer/round_robin.rs:25-44 | from a counter value both rotations return a healthy server for every health that has one, exactly when a turn does not cross the wrap or the number of servers divides 2^64 |
| `RoundRobin.HttpFairExactly` | src/balancer/round_robin.rs:25-44 | the HTTP shares hold for every health exactly when all turns of the round stay clear of the wrap or the number of servers divides 2^64 |
| `RoundRobin.TcpFairExactly` | src/tcp/service.rs:76-103 | the TCP shares hold for every health exactly when one turn stays clear of the wrap or the number of servers divides 2^64 |
| `PassiveHealth.SlidingWindow.Add` | src/health/passive.rs:97-110 | the window keeps what is young enough, appends the outcome and counts the failures left |
| `PassiveHealth.RecentTwice` | src/health/passive.rs:97-110 | pruning early loses nothing that pruning late would keep |
| `PassiveHealth.WindowIsHistory` | src/health/passive.rs:97-110 | the pruned window shows the same recent outcomes as the full history, at every later time |
| `PassiveHealth.ChangeIsFlip` | src/health/passive.rs:160-248 | a change is reported exactly when the verdict flips, and in that direction |
| `PassiveHealth.PassiveHealthChecker.RecordResponse` | src/health/passive.rs:160-248 | only that backend's state and statistics change, to the judged and the counted ones, and the reported change is the flip of its verdict |
| `PassiveHealth.StatsAreOfHistory` | src/health/passive.rs:172-188 | after any run the counters show all responses and all failures, in 64 bits, and the moving average lies between the fastest and the slowest response as long as ten times the slowest fits 64 bits |
| `PassiveHealth.AverageMoves` | src/health/passive.rs:177-188 | unless the sum wraps, each response moves the average a tenth of the way, rounded down, and the first one sets it |
| `PassiveHealth.SlowFromNextMillisecond` | src/health/passive.rs:235-248 | a response fails exactly for a listed status or from the first full millisecond above the threshold on |
| `PassiveHealth.PassiveHealthChecker.Judge` | src/health/passive.rs:193-232 | the thresholds applied step by step give the judged state |
| `PassiveHealth.ChangesAlternate` | src/health/passive.rs:160-248 | over any run reported changes take turns, starting with a failure, and the verdict is the last one |
| `PassiveHealth.TripsOnHistory` | src/health/passive.rs:160-248 | at every place of every run a healthy backend is taken out by its next response exactly when the failures that end the history since it last came back, or the failures of the full history in the window, this one included, reach the threshold; with a success threshold above zero the counter is the failures that end the history |
| `PassiveHealth.RecoversOnHistory` | src/health/passive.rs:160-232 | at every place of every run a backend that is out is brought back by its next response exactly when the successes that end the history since it was taken out, this one included, reach the success threshold; a failure brings it back exactly when that threshold is zero |
| `PassiveHealth.RecordIsOfHistory` | src/health/passive.rs:160-232 | for every configuration the counters are the failures that end the run since the backend last came back and the successes since it was last taken out, and the time kept is the time it was taken out |
| `PassiveHealth.PassiveHealthChecker.CanTry` | src/health/passive.rs:141-157 | unknown and healthy backends may be tried, others once the recovery interval is over |
| `PassiveHealth.TriedAgainExactly` | src/health/passive.rs:141-157 | a backend that is out may be tried again exactly when the recovery interval has passed since the response that took it out |
| `PassiveHealth.StreakIsCountedExactly` | src/health/passive.rs:193-221 | the counter is the number of failures that end the run, in every run, exactly when the success threshold is not zero |
| `PassiveHealth.UniqueKeepsStep` | src/proxy/handler.rs:494-519 | with distinct URLs, and each response handled to its end before the next, every run leaves every balancer flag equal to the verdict |
| `PassiveHealth.NeverTrips` | src/health/passive.rs:160-248 | when no response can count as a failure, no run ever lowers a flag or a verdict |
| `PassiveHealth.Trip` | src/proxy/handler.rs:494-519 | enough failures through one service take a backend out and lower exactly one flag |
| `PassiveHealth.DuplicateFallsOut` | src/proxy/handler.rs:494-519 | with a URL listed twice some run leaves a flag that contradicts the verdict |
| `PassiveHealth.FlagsInStepExactlyWhenUnique` | src/proxy/handler.rs:494-519 | one response at a time, flags follow verdicts in every run exactly when no URL is listed twice or nothing can trip |
| `HealthChanges.AlwaysTracked` | src/proxy/handler.rs:442-519 | with recording and applying apart, under every interleaving that applies each backend's changes in the order recorded, the changes pending for a server lead from its flag to its verdict, flipping each time |
| `HealthChanges.OneByOneIsSequential` | src/proxy/handler.rs:442-519 | recording and applying without interruption is handling one response at a time |
| `HealthChanges.FollowsInOrderExactly` | src/proxy/handler.rs:442-519 | under every such interleaving the flags equal the verdicts whenever nothing is pending, exactly when no URL is listed twice or nothing can trip |
| `HealthChanges.SwappedFallsOut` | src/proxy/handler.rs:442-519 | for every server and every configuration that can trip, a failure and a recovery applied the other way round leave the flag of a healthy server down with nothing pending |
| `HealthChanges.FollowsInAnyOrderExactly` | src/proxy/handler.rs:442-519 | with changes applied in any order, flags equal verdicts in every settled run exactly when nothing can trip or there is no server |
| `Leases.LeaderKey.AcquireScript` | src/store/valkey.rs:38-50 | the script takes a free or own lease for whole seconds of the time to live, is rejected for zero, and leaves another's alone |
| `Leases.LeaderKey.ReleaseScript` | src/store/valkey.rs:53-64 | the script removes the lease exactly when the caller holds it |
| `Leases.LeaderKey.Get` | src/store/valkey.rs:852-863 | the holder found is the only node whose acquire would not be refused now, and with none found nobody is refused |
| `LeaderElection.ClusterManager.OnReply` | src/cluster/manager.rs:179-212 | the flag is up exactly after a grant, so a refusal and an error drop it; a change is logged only if it flips, and always except after an error |
| `LeaderElection.ClusterManager.Shutdown` | src/cluster/manager.rs:111-129 | leaving releases the lease exactly when this node believes it leads and still holds it |
| `LeaderElection.StepKeepsBacked` | src/cluster/manager.rs:179-212 | every event keeps the invariant that a grant a live node acts on backs it for its whole span |
| `LeaderElection.AlwaysBacked` | src/cluster/manager.rs:179-212 | the invariant holds in every state of every run of any number of nodes, with crashes, delays and names taken again after a crash, or after a shutdown once its release has run |
| `LeaderElection.OneLeaderPerSpan` | src/cluster/manager.rs:179-212 | in every such run two live leaders within the span the store keeps for their grants are the same node |
| `LeaderElection.LeaseEndsInTime` | src/store/valkey.rs:38-50 | in every state of every run the lease ends no later than one granted now would |
| `LeaderElection.TurnLeads` | src/cluster/manager.rs:179-212 | after any run, a live node whose turn comes when nobody else holds the lease leads after it, and no other node is affected |
| `LeaderElection.FailsOver` | src/cluster/manager.rs:179-212 | failover: after any run, when a node crashes, every other live node whose turn comes a span later leads, and the crashed one does not |
| `LeaderElection.HandsOver` | src/cluster/manager.rs:111-129 | handover: after any run, when a leader that holds the lease shuts down and its release has run, every other node whose turn has come leads at once |
| `LeaderElection.NobodyLeads` | src/store/valkey.rs:823-836 | with a time to live under a second no run ever has a leader |
| `LeaderElection.SafeTtlExcludes` | src/cluster/manager.rs:179-212 | with whole seconds, or less than one, every timely state of every such run has at most one leader |
| `LeaderElection.Overlap` | src/cluster/manager.rs:179-212 | for every other time to live there is a timely run with two leaders |
| `LeaderElection.ExclusiveExactlyWhenSafe` | src/cluster/manager.rs:179-212 | timely elections are exclusive in every such run exactly for those times to live |
| `LeaderElection.AlwaysOnSchedule` | src/cluster/manager.rs:179-212 | nodes that renew every third of the time to live stay within two intervals of their last grant in every run |
| `LeaderElection.UsualTtlsFit` | src/cluster/manager.rs:179-212 | two intervals end before the store forgets, for every time to live from three seconds on and for all whole seconds |
| `LeaderElection.PromptExcludes` | src/cluster/manager.rs:179-212 | on schedule, and when two intervals fit, no run ever has two leaders |
| `LeaderElection.PromptOverlap` | src/cluster/manager.rs:179-212 | when they do not fit, some run on schedule has two leaders |
| `LeaderElection.PromptExclusiveExactlyWhenIntervalsFit` | src/cluster/manager.rs:179-212 | renewing every third is enough exactly when two intervals end before the store forgets |
| `LeaderElection.HastyReturn` | src/cluster/manager.rs:111-129 | when a name is taken again before its old release has run, that release frees the new lease and two nodes lead at the same instant |
| `LeaderElection.NamesNeedOrder` | src/cluster/manager.rs:111-129 | with names taken again at any time, timely elections are exclusive in every run exactly when no lease can be granted at all |
| `LocalStores.LocalStore.AcquireLeadership` | src/store/local.rs:424-443 | a free, expired or own lease is taken or renewed and another's refused, as the specification of the store says |
| `LocalStores.LocalStore.ReleaseLeadership` | src/store/local.rs:445-452 | only the holder's own lease is dropped |
| `LocalStores.LocalStore.FindLeader` | src/store/local.rs:454-459 | the answer says exactly which nodes would be granted the lease now |
| `LocalStores.LocalStore.SetSticky` | src/store/local.rs:205-221 | the session is found until its time to live ends and not after, and every other session of its service, and of services that share no keys with it, is as it was |
| `LocalStores.LocalStore.DeleteSticky` | src/store/local.rs:223-227 | the session is not found at any time, and every other session of its service, and of services that share no keys with it, is as it was |
| `LocalStores.ServicesShareKeysExactly` | src/store/local.rs:193-227 | sessions of two services can fall on one key exactly when one service's name is the other's, a colon and more |
| `LocalStores.LocalStore.FindSticky` | src/store/local.rs:193-203 | what is found is all that can be found later without a write |
| `LocalStores.LocalStore.SetChallenge` | src/store/local.rs:397-406 | the challenge is found until its time to live ends and not after, and every other challenge is as it was |
| `LocalStores.LocalStore.FindChallenge` | src/store/local.rs:408-413 | what is found is all that can be found later without a write |
| `LocalStores.LocalStore.DeleteChallenge` | src/store/local.rs:415-418 | the challenge is not found at any time, and every other challenge is as it was |
| `LocalStores.LocalStore.CleanUp` | src/store/local.rs:102-123 | no reader can tell the stores before and after apart from now on, and no expired session, challenge or lease is left |
| `LocalStores.ReadsBack` | src/store/local.rs:193-227 | over any trace of other operations, clean-ups included, a session or challenge is found until it expires and not after |
| `LocalStores.CleanupsUnseen` | src/store/local.rs:102-123 | clean-ups may be inserted or dropped anywhere in a timed trace and no answer changes |
| `LocalStores.OpMirrors` | src/store/local.rs:424-459 | for whole seconds each lease operation answers as the script does and keeps the two stores alike |
| `LocalStores.RefinesFrom` | src/store/local.rs:424-459 | over every timed trace of such operations the answers are the same |
| `LocalStores.AgreesExactlyOnWholeSeconds` | src/store/valkey.rs:38-64 | the local store refines the scripts on every trace exactly when the time to live is a positive number of whole seconds |
| `RateWindow.RateLimitKey.CheckScript` | src/store/valkey.rs:15-35 | the commands of the script give the specified verdict and the specified set |
| `RateWindow.RateLimitKey.Remaining` | src/store/valkey.rs:327-338 | if anything is reported left, a check now is admitted, and leaves at least one less |
| `RateWindow.RunIsFaithful` | src/store/valkey.rs:15-35 | after any run the set shows every admission younger than the window and nothing that was not admitted |
| `RateWindow.StoredIsRecent` | src/store/valkey.rs:15-35 | right after a check the set is exactly the admissions younger than the window |
| `RateWindow.VerdictIsExact` | src/store/valkey.rs:296-325 | a call is admitted exactly when fewer than the limit were admitted in the window before it, and is told exactly what is left, nothing when it is refused |
| `RateWindow.WindowNeverExceeded` | src/store/valkey.rs:15-35 | over every run no interval of the window's length, ending anywhere, holds more than the limit of members |
| `RateWindow.RemainingNeverOverReports` | src/store/valkey.rs:327-338 | the unlocked query never reports more than is really left |
| `RateWindow.RemainingIsExactly` | src/store/valkey.rs:327-338 | over every run the query reports the limit less the admissions in the window exactly when the set shown holds nothing older than the window |
| `RateWindow.RemainingAfterCheck` | src/store/valkey.rs:327-338 | so it is exact right after every check, and the whole limit is left once the last admission has left the window |
| `RateWindow.RunHoldsAtMost` | src/store/valkey.rs:15-35 | over every run the set holds at most the limit, and the store drops it just when the last admission leaves the window |
| `RateWindow.ResetIsExact` | src/store/valkey.rs:15-35 | at the reset time of an answer nothing that counted when it was given still counts, and of an admission this is the first such time |
| `RateWindow.AtMostLimitAdmitted` | src/store/valkey.rs:15-35 | whatever members are drawn, no interval of the window's length admits more than the limit beyond the repeats of admitted members, and so no more than the limit when members do not collide |
| `RateWindow.CollisionsAreCountedOnce` | src/store/valkey.rs:15-35 | for every limit from two on, any number of requests that draw one member are all admitted and stored once |
| `RateWindow.NeverOverAdmitsExactly` | src/store/valkey.rs:15-35 | whatever members are drawn, no interval of the window's length admits more requests than the limit in any run, exactly when the limit is at most one or the window is empty |
| `TokenBuckets.TokenBucket.TryAcquire` | src/middleware/builtin/rate_limit.rs:52-98 | the bounded retry loop refills, caps and takes one token, or refuses and changes nothing, for every number of failed swaps |
| `TokenBuckets.AdmitsExactly` | src/middleware/builtin/rate_limit.rs:52-98 | while nothing wraps, a call is admitted exactly when not all swaps are lost, the burst is at least one and the tokens held and the milliseconds since the last admission times the rate make a token; what is left is their sum less the token, up to the burst, and a refusal changes nothing |
| `TokenBuckets.BurstAdmittedExactly` | src/middleware/builtin/rate_limit.rs:52-98 | any number of calls at one instant: exactly as many are admitted as there are whole tokens, up to the burst |
| `TokenBuckets.RunKeepsBudget` | src/middleware/builtin/rate_limit.rs:52-98 | admitted tokens and what is left never exceed what was there plus what the exact rate earned |
| `TokenBuckets.AdmissionLeavesRoom` | src/middleware/builtin/rate_limit.rs:52-98 | right after an admission the bucket is a token short of its cap |
| `TokenBuckets.AdmittedTightly` | src/middleware/builtin/rate_limit.rs:52-98 | after an admission the requests admitted in any following stretch are bounded by the burst and the rate the code earns at |
| `TokenBuckets.AdmittedAsDocumented` | src/middleware/builtin/rate_limit.rs:144-157 | they are bounded by the burst and the documented average per second |
| `TokenBuckets.EarnedPerSecond` | src/middleware/builtin/rate_limit.rs:60-62 | any number of whole seconds earns at most the configured rate in thousandths of a token per second, and exactly that unless the product wraps |
| `TokenBuckets.KeysAreIndependent` | src/middleware/builtin/rate_limit.rs:144-157 | over any trace of calls with any keys, a key is admitted exactly what its own calls alone would be |
| `TokenBuckets.EveryKeyObeysBound` | src/middleware/builtin/rate_limit.rs:144-157 | over any trace of calls with any keys, what a key is admitted in any stretch after one of its admissions is bounded by the burst and the documented average per second |
| `TokenBuckets.AlwaysTruthful` | src/middleware/builtin/rate_limit.rs:144-157 | over any trace of calls with any keys, every bucket is still as full as it was made or is stamped with the time of one of its own admissions and within the burst |
| `TokenBuckets.RestedKeyIsAdmitted` | src/middleware/builtin/rate_limit.rs:144-157 | nobody waits for ever: over any trace of calls with any keys, as long as nothing wraps, a key without an admission in the last r milliseconds is admitted, new keys included, where r times the average is a million or more |
| `TokenBuckets.WrappingRefuses` | src/middleware/builtin/rate_limit.rs:52-98 | where the product, the sum or the burst wraps, rested, full and all buckets in turn are refused |
| `InterleavedBucket.MoveWithdrawsOne` | src/middleware/builtin/rate_limit.rs:52-98 | every atomic step leaves the tokens alone or admits one request and takes exactly one token |
| `InterleavedBucket.EveryScheduleSound` | src/middleware/builtin/rate_limit.rs:52-98 | after every schedule admitted tokens are covered by the start and the credited refills, and the bucket stays within its cap |
| `InterleavedBucket.SoundUnderInterleaving` | src/middleware/builtin/rate_limit.rs:52-98 | the same from a bucket nobody has used yet, for any number of callers |
| `InterleavedBucket.EveryCallEnds` | src/middleware/builtin/rate_limit.rs:52-98 | no livelock: under every schedule of any number of callers, a caller ends its call within 25 moves of its own |
| `InterleavedBucket.LossesAreRetried` | src/middleware/builtin/rate_limit.rs:52-98 | lost swaps are retried up to the eighth, which ends the call and leaves the bucket as it was |
| `InterleavedBucket.RacersCreditTwice` | src/middleware/builtin/rate_limit.rs:52-98 | for every limit with room for it, two callers that read the last admission time before either stamps its own credit the same stretch of time twice |
| `InterleavedBucket.UninterruptedAttempt` | src/middleware/builtin/rate_limit.rs:52-98 | a caller nobody interrupts does what the sequential attempt does |
| `Rules.SameIsLower` | src/router/rule.rs:62-65 | two texts are equal ignoring ASCII case exactly when their lower-case forms are equal |
| `Rules.HostsAreNecessary` | src/router/rule.rs:157-167 | a rule matches only requests for each of its extracted hosts, ignoring case |
| `Rules.UrlDecode` | src/router/rule.rs:119-150 | the loop computes the decoding, lone percent signs kept |
| `Rules.TakeHex` | src/router/rule.rs:126-133 | the look-ahead takes the hexadecimal digits among the next two characters and stops at anything else |
| `Rules.HexValueExactly` | src/router/rule.rs:126-137 | the value of a hexadecimal digit is its place among the sixteen digits, in either case, and nothing else is one |
| `Rules.DecodingKeepsExactly` | src/router/rule.rs:119-150 | a text decodes to itself exactly when it has no plus sign and no complete escape, so broken escapes are kept |
| `Rules.DecodesSpelling` | src/router/rule.rs:119-150 | decoding undoes every way to write a text: plain, plus signs for spaces, percent escapes of either case |
| `Rules.QueryParamMatches` | src/router/rule.rs:102-116 | the loop finds a pair exactly when some piece decodes to it |
| `Rules.QueryFindsParams` | src/router/rule.rs:102-116 | on any list of parameters, pairs and lone names, a pair is found exactly when it is in the list, however its characters and those of the others were written |
| `RuleLaws.HostIgnoresCaseExactly` | src/router/rule.rs:62-64 | a host rule matches exactly the hosts that differ from its own in the case of ASCII letters |
| `RuleLaws.MethodIgnoresCaseExactly` | src/router/rule.rs:88-90 | a method rule matches exactly the methods that differ from its own in the case of ASCII letters |
| `RuleLaws.CaseIsAllThatDiffersExactly` | src/router/rule.rs:62-90 | two host rules, and two method rules, match the same requests exactly when they differ in the case of ASCII letters only |
| `RuleLaws.PathIsExact` | src/router/rule.rs:68 | exactly one text makes a path rule match a request |
| `RuleLaws.PrefixContinuesExactly` | src/router/rule.rs:68-69 | a prefix rule matches exactly when the path rule of some continuation does |
| `RuleLaws.HeaderHasOneValue` | src/router/rule.rs:71-77 | a header rule matches for at most one value, for one exactly when the header can be read, and for the value put there |
| `RuleLaws.PatternsTestTheText` | src/router/rule.rs:65-84 | path and header patterns match exactly when a text that the plain rule matches fits the pattern, and host patterns as a path pattern would the host |
| `RuleLaws.QueryRuleFindsPair` | src/router/rule.rs:85-87 | a query rule matches a list of parameters exactly when its pair is one of them, and nothing without a query |
| `RuleLaws.OnlyNamedPartsMatter` | src/router/rule.rs:52-98 | requests that agree on the parts a rule names are not told apart by it, however it is combined |
| `RuleLaws.NormalFormExactly` | src/router/rule.rs:52-98 | a rule matches exactly when some clause of its disjunctive normal form does, and fails exactly when some clause of the normal form of its negation does |
| `RuleLaws.NormalFormOnLeaves` | src/router/rule.rs:52-98 | the normal form is made of leaves only |
| `RuleLaws.BooleanLaws` | src/router/rule.rs:91-97 | excluded middle, double negation, De Morgan, idempotence and absorption hold of all rules |
| `RuleScanner.FindOperator` | src/router/rule.rs:341-360 | the loop finds the first operator at depth zero and outside backticks |
| `RuleScanner.FindPasses` | src/router/rule.rs:341-360 | after a part without the operator the scan goes on as if it had started there |
| `RuleScanner.FindsBetweenExactly` | src/router/rule.rs:341-360 | the operator between two texts is the one found exactly when the left text has none, is closed, and does not end in half of one |
| `RuleParser.ParseArgs` | src/router/rule.rs:308-339 | the loop collects the texts between backticks |
| `RuleParser.TrimIgnored` | src/router/rule.rs:175-178 | white space around a rule never changes the result, rule or error, for any text |
| `RuleTrim.SpaceExactly` | src/router/rule.rs:175-178 | white space is the space and the five control characters from tab to carriage return |
| `RuleParser.SplitsBetween` | src/router/rule.rs:180-198 | a rule splits at the first operator into the parses of its two sides, the left error first |
| `RuleSyntax.TextInert` | src/router/rule.rs:341-360 | no text of the grammar shows an operator outside the level at which it is looked for |
| `RuleSyntax.ArgsOfBody` | src/router/rule.rs:308-339 | the arguments of a call are exactly what was quoted, whatever stands between |
| `RuleSyntax.ParsesText` | src/router/rule.rs:175-306 | every text of the grammar, with any padding and nesting, parses to what it stands for: negation binds tightest, then and, then or, both to the right; each of the nine matchers takes its own number of arguments, and the leftmost unknown matcher, wrong number of arguments, pattern that does not compile or missing call is the error |
| `RuleSyntax.PrintParses` | src/router/rule.rs:175-306 | every rule without backticks and with valid patterns parses back from its printed form |
| `RuleSyntax.NormalForm` | src/router/rule.rs:175-306 | whatever text parses, the resulting rule prints to a text that parses to it again |
| `RouteIndexes.PushAll` | src/router/mod.rs:70-83 | a route is appended once under each of its keys, and every other list is unchanged |
| `RouteIndexes.NumbersMember` | src/router/mod.rs:70-99 | the list of a key holds exactly the routes that have it, in ascending order |
| `Routers.SortSorts` | src/router/mod.rs:68 | the routes stand by descending priority |
| `Routers.SortPermutes` | src/router/mod.rs:68 | sorting loses and invents no route |
| `Routers.SortIsStable` | src/router/mod.rs:68 | routes of one priority keep their order |
| `Routers.SortIsSort` | src/router/mod.rs:68 | sorting lists each route once, by descending priority and then by number |
| `Routers.ParseRoutes` | src/router/mod.rs:44-66 | each configuration whose rule parses gets one route with its name, entrypoints, service, middlewares, priority and parsed rule, in order, and no route comes from elsewhere |
| `Routers.BuildHostIndex` | src/router/mod.rs:70-83 | every route is listed under the lower-case form of each extracted host and marked exactly when it has one |
| `Routers.BuildEntrypointIndex` | src/router/mod.rs:85-99 | every route is listed under each of its entrypoints, or among the unbound ones when it has none |
| `Routers.Merge` | src/router/mod.rs:101-119 | the in-step merge computes the merge by priority |
| `Routers.MergeAll` | src/router/mod.rs:101-119 | every entrypoint keeps its key and gets the merge of its own list with the unbound routes |
| `Routers.MergedPermutes` | src/router/mod.rs:101-119 | the merge loses and invents no candidate |
| `Routers.MergedInOrder` | src/router/mod.rs:101-119 | the merge is by descending priority, bound routes first among equals, then as configured |
| `Routers.CandidatesAreBound` | src/router/mod.rs:85-119 | the candidates of any entrypoint, configured or not, are exactly the routes bound to it or to none, in order |
| `Routers.IndexedHitIsListed` | src/router/mod.rs:146-168 | a matching host-indexed route is always found under the request's host, so skipping it later is safe |
| `Routers.Router.constructor` | src/router/mod.rs:44-127 | each configuration whose rule parses has exactly one route with its name, entrypoints, service, middlewares, priority and parsed rule, and no route comes from elsewhere; routes stand by priority and then as configured, with indexes that agree with them |
| `Routers.Router.CheckListed` | src/router/mod.rs:149-158 | the first listed route that is bound to the entrypoint and matches |
| `Routers.Router.CheckCandidates` | src/router/mod.rs:162-171 | the first candidate outside the host index that matches |
| `Routers.Router.MatchRequest` | src/router/mod.rs:130-174 | no answer exactly when no bound route matches; otherwise the first matching host-indexed route, or with none the first other one in candidate order; over the configuration, the route of the chosen router |
| `Routers.AnswerIsChosen` | src/router/mod.rs:44-174 | over the configuration: no answer exactly when no router bound to the entrypoint or to none has a rule that parses and matches; otherwise the answer comes from one of these, those whose rules insist on a host first, then by priority, bound before unbound where no host is insisted on, then as configured |
| `Routers.ChosenIsUnique` | src/router/mod.rs:44-174 | one router of the configuration is chosen |
| `Routers.AnswerIsUnique` | src/router/mod.rs:130-174 | a request has one answer |
| `Routers.HighestPriorityExactly` | src/router/mod.rs:129-174 | the indexes answer exactly when a plain scan does, with the same priority exactly when no match outside the host index outranks all matches in it |
| `Routers.SameRouteExactly` | src/router/mod.rs:129-174 | the answer is the very route of a plain scan exactly when that route is host-indexed if any match is, and otherwise is bound or no bound match shares its priority |
| `Routers.HostRuleWins` | src/router/mod.rs:129-174 | a request where a host rule of priority 1 beats a path rule of priority 10 |
| `ClientHello.ParseSniExtension` | src/tcp/proxy.rs:242-265 | a host is returned exactly when its encoding as a host name entry opens the list and it is UTF-8 |
| `ClientHello.FindExtensions` | src/tcp/proxy.rs:177-221 | the extensions' bounds, or none when any length before them does not hold, and never past the data |
| `ClientHello.ParseSni` | src/tcp/proxy.rs:176-239 | the loop computes the search, a slice past the end included |
| `ClientHello.ExtensionsFound` | src/tcp/proxy.rs:177-221 | the extensions are found in every message that has them whole and in none that is cut off |
| `ClientHello.FindsServerName` | src/tcp/proxy.rs:176-239 | in every well-formed client hello, whatever follows it, the first server name extension is found, or none if there is none |
| `ClientHello.FindsFirstHost` | src/tcp/proxy.rs:242-265 | for every well-formed list of names the first is reported exactly when it is a host name in UTF-8 |
| `ClientHello.CutOffIsAbsent` | src/tcp/proxy.rs:176-221 | no proper prefix of a well-formed client hello yields a name |
| `ClientHello.LeavesDataExactly` | src/tcp/proxy.rs:223-239 | the slice leaves the data exactly when the first server name extension is declared longer than the data left |
| `ClientHello.LeavesDataOnHollowName` | src/tcp/proxy.rs:118-170 | a client hello on which the slice is out of range with every rest of fewer than 65535 octets, and so in every buffer the program passes |
| `Base64Alphabet.StandardIsReadable` | src/middleware/builtin/grpc_web.rs:216-224 | every digit of the standard alphabet reads back as its value and is neither padding nor skipped |
| `Base64.EncodeChunk` | src/middleware/builtin/grpc_web.rs:187-213 | the four characters of a chunk decode to exactly the chunk |
| `Base64.EncodeChunks` | src/middleware/builtin/grpc_web.rs:187-213 | the chunked encoder computes base64 as section 4 of RFC 4648 defines it |
| `Base64.EncodeStream` | src/tls/mtls.rs:267-295 | the streaming encoder computes the same, over a 32-bit buffer that is never masked and wraps |
| `Base64.DecodeStream` | src/middleware/builtin/grpc_web.rs:216-251 | the single pass over the text computes the decoding |
| `Base64.UnpackSextets` | src/middleware/builtin/grpc_web.rs:216-251 | the digits of any bytes give out exactly those bytes |
| `Base64.SkippingIsStripping` | src/middleware/builtin/grpc_web.rs:216-251 | skipped characters may stand anywhere without effect |
| `Base64.DecodesExactly` | src/middleware/builtin/grpc_web.rs:216-251 | a text decodes exactly when every character in front of its padding is a digit of the standard alphabet, a line break or a space |
| `Base64.DecoderInvertsEncoders` | src/middleware/builtin/grpc_web.rs:216-251 | the decoder recovers the bytes from their encoding with line breaks or spaces anywhere in it |
| `Base64.PemBodyDecodes` | src/tls/mtls.rs:255-262 | an encoding broken into lines of 64 decodes to the original bytes |
| `Der.EncodeLength` | src/tls/acme/client.rs:801-812 | a strict reader gets the length back from exactly the octets appended, if and only if it is below 65536 |
| `Der.WrapWith` | src/tls/acme/client.rs:772-786 | the element reads back as tag and content with nothing left over, if and only if the content is shorter than 65536 octets |
| `Der.WrapBitString` | src/tls/acme/client.rs:788-795 | a bit string without unused bits |
| `Der.ReadLengthBack` | src/tls/acme/client.rs:801-812 | what a strict reader makes of every length the encoder writes, too long ones included |
| `Der.ReadsBackExactly` | src/tls/acme/client.rs:772-812 | an element reads back, with what follows left over, exactly when its content is shorter than 65536 octets |
| `SigningRequests.BuildSanAttribute` | src/tls/acme/client.rs:732-770 | the loop and wrappers build the attribute of the alternative names, which `SanReadsBackExactly` reads back by tag classes, tag numbers and object identifiers |
| `SigningRequests.ReadsRequestId` | src/tls/acme/client.rs:755-756 | the attribute is 1.2.840.113549.1.9.14 |
| `SigningRequests.ReadsKeyAlgorithm` | src/tls/acme/client.rs:718-730 | the key algorithm is 1.2.840.10045.2.1 on the curve 1.2.840.10045.3.1.7 |
| `SigningRequests.ReadsSignatureAlgorithm` | src/tls/acme/client.rs:683-686 | the signature algorithm is 1.2.840.10045.4.3.2 without parameters |
| `SigningRequests.SanReadsBackExactly` | src/tls/acme/client.rs:732-770 | a reader that goes by tag classes and numbers and by object identifiers decoded from base 128 gets exactly the domains back, in order, as DNS names of an extension request, if and only if the encoded names take fewer than 65496 octets |
| `SigningRequests.BuildCn` | src/tls/acme/client.rs:695-716 | the subject is one common name |
| `SigningRequests.BuildCsr` | src/tls/acme/client.rs:645-693 | there is a request exactly when signing succeeds, and it is the encoded information, the algorithm and the signature of exactly that information |
| `SigningRequests.CsrReadsBackExactly` | src/tls/acme/client.rs:645-730 | the same reader gets a version 1 request back with its names, P-256 key, signed octets and signature under ECDSA with SHA-256, if and only if its content is shorter than 65536 octets |

## Left out

- Sockets, TLS, HTTP, publish/subscribe, metrics, certificates' validity, hot reload of the configuration and all logging.
- The circuit breaker: counters and thresholds of the kind modelled for passive health, without the flags that have to follow them.
- The random and least-connection balancers: the first draws a number, the second takes one minimum over connection counts.
- Retries, the remaining middlewares and session cookies: each decides one request by a short chain of tests, with nothing to keep in step across requests.
- Trailer framing of gRPC-Web, WebSocket handshake hashes and JSON web tokens.
- The rate limit of the in-memory store and its cross-window behaviour.
- Memory orderings: atomics are modelled as interleaved steps, so effects of relaxed ordering between different slots are not.
- Concurrent calls of the weighted balancer, the rotations and the local store: their models take one call at a time. Two marks of the weighted balancer that interleave can leave its cached total stale until the next mark (src/balancer/weighted.rs:46-54, 99-114).
- Response statuses are unbounded numbers, so there is always one that does not count as a failure.
- Two nodes that are up under one name at the same time: they would share a lease. A name may be taken again after a shutdown or a crash.
- Times of one run never go backwards in the models of the rate limit script, the stores and the token bucket.
- Rule texts are ASCII: operator positions are character counts used as byte offsets, which differ for other texts. The texts carried by syntax errors, and parenthesis depths beyond 32 bits, are not modelled.
- Percent escapes are decoded to the character of that code, as the program does; that a multi-byte UTF-8 escape therefore decodes to several characters is not stated as a property.
- The iteration order of configured routers is a parameter: routes of equal priority keep whatever order it gives.
- WeightedBalancers.WeightedBalancer.NextServer: current weights are integers, so the wrap-around of configurations whose number of servers times total weight reaches 2^63 is not modelled; below that no slot leaves 64 bits.
- InterleavedBucket.SoundUnderInterleaving: bounds admissions by the refills that were credited, not by the elapsed time, because racing callers can credit one stretch of time more than once (`RacersCreditTwice`).
