# Verified models of the agent platform

These Dafny files model the parts of the platform whose correctness cannot be settled by examples:
two load balancers, the task graph executor, the two token budgets, the durable query pipeline, the
circuit breaker, two codecs, the agent directory with its indexes, and the health window.
`dafny verify dfyconfig.toml` checks them all.

Code that changes state is a class or a method with loops. Each such method is proved equal to a
specification function of the old state, or against the property itself; the theorems are lemmas
about those functions over all inputs, runs or interleavings. Protocols in which threads, sessions
or callers interleave are state machines: a run is any sequence of atomic steps, a disabled step
changes nothing, and the theorems hold after every run.

| file | models |
|---|---|
| `WeightedRoundRobin.dfy` | smooth weighted round robin: fairness, drift, conservation |
| `ConsistentHash.dfy` | the consistent-hash ring: clockwise owner, minimal disruption |
| `TaskGraph.dfy` | layered topological sort with cycle detection |
| `TaskPlanner.dfy` | reading a plan and pruning dangling dependencies |
| `TaskExecutor.dfy` | layer-parallel execution under a global deadline |
| `PostgresBudget.dfy` | the durable budget, one whole transaction at a time |
| `PostgresConcurrency.dfy` | the same budget as interleaved transaction steps under advisory locks |
| `RedisBudget.dfy` | the increment, check and roll back budget without locks |
| `MessageLog.dfy` | conversations with auto-sequenced messages |
| `MessageConcurrency.dfy` | the same appends as interleaved sessions with row locks and unique keys |
| `QueryPipeline.dfy` | the durable life of a query, retried and run concurrently |
| `CircuitBreaker.dfy` | the three-state breaker and when it can get stuck |
| `Base64.dfy` | the table-driven codec against section 4 of RFC 4648 |
| `Utf8Keywords.dfy` | UTF-8 coding (section 3 of RFC 3629) and keyword search on bytes |
| `AgentIndex.dfy` | the agent directory, its tag and skill indexes, and search |
| `HealthWindow.dfy` | the 100-slot ring of outcomes and the latency average |
| `Common.dfy`, `Sorting.dfy` | shared types; what `std::sort` and ordered maps promise |

## Where the code does not do what one would expect

- A dependency on an id that is not in the plan, or a repeated id, makes `topologicalLayers` report a
  cycle that is not there. It succeeds exactly for unique ids, no dangling dependency and no cycle
  (`TaskGraph.TopologicalLayers`). The planner removes the dangling ones but keeps repeated ids.
- A global budget limit bounds the global counter only if every owner has one: an owner whose limit is
  0 lifts it for all (`PostgresBudget.GlobalBoundIffEveryOwnerLimited`).
- A ledger row stands for an accepted reservation only if the configured limits are not negative.
  With a negative one `reserve` throws and the abort path still writes the ledger row
  (`QueryPipeline.LedgerBackedIffLimitsValid`).
- The breaker can get stuck in HALF_OPEN for good, rejecting everything with no request left running,
  exactly when the failure rate can trip it two or more failures before the failure threshold and is
  not looked at while probing (`CircuitBreaker.StuckIff`). The defaults are safe; a failure threshold
  of 7 is not.
- Successful probes need not close the breaker: with a minimum request count within the probes, the
  failures kept from before can reopen it (`CircuitBreaker.OpenRecoversIff`).
- Registering a live agent again without a tag or skill that it had leaves it listed under the old one.
  Search is right throughout a run exactly if no registration does that
  (`AgentIndex.SearchCorrectThroughoutIff`).
- The smooth weighted round robin leaves weight uncharged when a selection adds it and then finds nobody to
  charge, as with a lone endpoint of weight −2147483648 (`WeightedRoundRobin.SumKeptIffCharged`,
  `WeightedRoundRobin.SmallestWeightIsNeverCharged`). And weights whose total fits an int can still
  overflow a counter (`WeightedRoundRobin.WithoutMarginCountersOverflow`).
- A retry of a request that ended without an answer adds the assistant message; apart from that the
  first finalization wins (`QueryPipeline.FirstFinalizationWinsIff`).
- Racing Redis calls can reject a call that is accepted in either order of whole calls
  (`RedisBudget.RaceRejectsWhatNoOrderRejects`).
- Two users of the Redis budget can share a session counter: user "a" with context "b:c" and user "a:b"
  with context "c". The exact condition is `RedisBudget.SessionKeysIff`.
- A latency average that reaches exactly 0 is taken for one that has not started
  (`HealthWindow.EmaIsWeightedSum`).
- `encodeUtf8` and `decodeUtf8` invert each other exactly for code points below 2^21
  (`Utf8Keywords.RoundTripIffNarrow`).
- The base64 decoder accepts last symbols with stray bits; exactly those texts do not re-encode to
  themselves (`Base64.EncodeInvertsDecodeIffCanonical`).

## Model

| member | source | states |
|---|---|---|
| WeightedRoundRobin.ExactFairness | common/src/load_balancer.cpp:141-160 | from a fresh pool with fixed health flags, any T selections in a row (T the healthy total) pick each healthy endpoint exactly as often as its weight and no unhealthy one, and lead back to the same state |
| WeightedRoundRobin.DriftIsBounded | common/src/load_balancer.cpp:146-158 | on every prefix the service an endpoint is owed, n·w − T·c, stays above −T and at most (m−1)(T−1) for m healthy endpoints |
| WeightedRoundRobin.CounterIsDebt | common/src/load_balancer.cpp:150-158 | a counter moves by exactly what the endpoint is owed, n·w − T·c |
| WeightedRoundRobin.SelectionConservesSum | common/src/load_balancer.cpp:148-158 | a selection that finds an endpoint keeps the sum of the healthy counters and of all counters, changes no endpoint, flag or weight and no unhealthy counter, and charges only the winner |
| WeightedRoundRobin.SumSurvivesHealthFlips | common/src/load_balancer.cpp:141-187 | from a fresh pool with non-negative weights whose total W times the pool size n fits an int, through any sequence of selections and health flips of any length, the counters sum to 0, each stays within W(n−1) of 0, and no value that the int fields pass through overflows |
| WeightedRoundRobin.WithoutMarginCountersOverflow | common/src/load_balancer.cpp:150 | the margin is needed: with weights 536870911 and 1610612733, W(n−1) fits an int, and the third selection overflows a counter |
| WeightedRoundRobin.SumKeptIffCharged | common/src/load_balancer.cpp:141-187 | for any pool and weights, over unbounded integers, hence for counters that fit their int: the sum is kept at every point of a run if and only if at each selection some healthy counter comes out above INT_MIN or the healthy weights add up to 0 |
| WeightedRoundRobin.SelectionKeepsSumIff | common/src/load_balancer.cpp:148-158 | the same for one call, under the guard of the throw, for counters that fit their int |
| WeightedRoundRobin.SmallestWeightIsNeverCharged | common/src/load_balancer.cpp:146-172 | the failing input: a lone healthy endpoint with configured weight −2147483648 is never chosen and its weight stays added |
| WeightedRoundRobin.RunKeepsContained | common/src/load_balancer.cpp:141-187 | why: after any run of selections and flips, no set of k endpoints is jointly more than W·k(n−k) in debt |
| WeightedRoundRobin.ChargedSetStaysContained | common/src/load_balancer.cpp:148-158 | the step behind it: a set that is charged while a healthy endpoint outside it was passed over stays within that debt |
| WeightedRoundRobin.SelectionKeepsBalance | common/src/load_balancer.cpp:145-159 | with positive healthy total and balanced counters a selection always finds an endpoint and keeps the balance |
| WeightedRoundRobin.FreshRunReturns | common/src/load_balancer.cpp:141-160 | after T selections every counter is back at zero |
| WeightedRoundRobin.NoIntOverflow | common/src/load_balancer.cpp:146-158 | no counter leaves 32 bits if m·T fits, so unbounded integers lose nothing |
| WeightedRoundRobin.Balancer.SelectEndpoint | common/src/load_balancer.cpp:141-160 | the pool becomes the specified next pool and the winner is returned; both empty cases and the all-unhealthy case give errors |
| WeightedRoundRobin.Balancer.BumpAndScan | common/src/load_balancer.cpp:145-156 | the loop adds the healthy weights and finds the first of the largest counters |
| WeightedRoundRobin.Balancer.UpdateEndpoints | common/src/load_balancer.cpp:162-177 | a fresh pool in the given order with configured weights, 1 when absent or unreadable |
| WeightedRoundRobin.Balancer.MarkEndpointStatus | common/src/load_balancer.cpp:179-187 | only the first endpoint with that id changes, and only its flag, which becomes the given one; an unknown id changes nothing |
| ConsistentHash.FlipMovesOnlyItsOwnKeys | common/src/load_balancer.cpp:219-261 | a health flip moves only positions that the flipped endpoint served before or serves afterwards |
| ConsistentHash.UpdateMovesOnlyLostAndNewKeys | common/src/load_balancer.cpp:210-261 | for any update: a position goes to another endpoint only if the one that served it is gone or unhealthy, or the one that serves it now was not there or not healthy |
| ConsistentHash.RingForgetsHistory | common/src/load_balancer.cpp:210-243 | balancers with the same healthy endpoints hold the same ring, whatever updates led there |
| ConsistentHash.LowerBoundIsOwner | common/src/load_balancer.cpp:255-261 | lower bound with wrap-around is the node that a clockwise walk meets first |
| ConsistentHash.OwnerIsUnique | common/src/load_balancer.cpp:228-243 | without collisions a position has one owner |
| ConsistentHash.ServingEndpointIsHealthy | common/src/load_balancer.cpp:228-261 | only registered endpoints marked healthy ever serve |
| ConsistentHash.VirtualKeysAreDistinct | common/src/load_balancer.cpp:232-236 | two virtual nodes share a key only if they are the same replica of the same endpoint |
| ConsistentHash.NodesAreReplicas | common/src/load_balancer.cpp:228-241 | the nodes of a ring are exactly the replicas i < count of registered healthy endpoints, with key "i:id", that endpoint, and the hash of that key as position |
| Common.IdsAreDistinct | common/src/load_balancer.cpp:210-214 | two endpoints have the same identifier if and only if host and port agree, colons in the host included |
| ConsistentHash.Balancer.BuildHashRing | common/src/load_balancer.cpp:228-243 | the rebuilt ring is sorted by position and holds exactly the replicas of the healthy endpoints, without repetition |
| ConsistentHash.Balancer.UpdateEndpoints | common/src/load_balancer.cpp:210-217 | later endpoints with the same id win, and the ring follows |
| ConsistentHash.Balancer.MarkEndpointStatus | common/src/load_balancer.cpp:219-226 | a known endpoint's flag changes and the ring follows; an unknown id changes nothing |
| ConsistentHash.Balancer.FindEndpoint | common/src/load_balancer.cpp:255-261 | returns the endpoint of the clockwise-first node, or the error for an empty ring |
| ConsistentHash.Balancer.SelectEndpointByKey | common/src/load_balancer.cpp:202-208 | serves the position of the key's hash; errors for no endpoints and for an empty ring |
| TaskGraph.TopologicalLayers | orchestrator/src/task_executor.cpp:202-269 | succeeds if and only if ids are unique, no dependency dangles and there is no cycle; the layers it returns hold every id once and are sorted |
| TaskGraph.LayerIsLongestChain | orchestrator/src/task_executor.cpp:229-255 | a task's layer index is the length of its longest dependency chain |
| TaskGraph.LayeringIsUnique | orchestrator/src/task_executor.cpp:219-255 | a plan has only one such layering, so the order of the unordered maps leaves no trace |
| TaskGraph.LayeringRulesOutCycles | orchestrator/src/task_executor.cpp:257-268 | a plan that can be layered has no cycle |
| TaskGraph.StuckSetHasCycle | orchestrator/src/task_executor.cpp:257-266 | tasks that all wait for each other contain an explicit cycle, by pigeonhole |
| TaskGraph.LoopEnds | orchestrator/src/task_executor.cpp:229-268 | when the queue is empty, everything was placed if and only if the plan meets the three conditions |
| TaskGraph.BuildMaps | orchestrator/src/task_executor.cpp:205-217 | in-degrees and dependents count exactly the dependency edges of the plan, repeated ones included |
| TaskGraph.ReleaseDependents | orchestrator/src/task_executor.cpp:238-247 | decrementing puts on the queue exactly the tasks whose last pending edge went |
| TaskGraph.PopLayer | orchestrator/src/task_executor.cpp:230-248 | one round empties the queue into a layer and refills it with exactly the next layer |
| TaskPlanner.ParseTasks | orchestrator/src/task_planner.cpp:172-213 | for some ascending choice of places that takes exactly the entries with both an id and a description: task k has that entry's id, description and skill, no preferred agent, and as dependencies, in order, exactly its string entries that name a kept task; the flag says whether none is left |
| TaskPlanner.PrunedIsParsed | orchestrator/src/task_planner.cpp:172-205 | the specified plan is such a reading of the raw entries |
| TaskPlanner.PruningKeepsInnerEdges | orchestrator/src/task_planner.cpp:194-205 | pruning removes exactly the dependencies on absent ids |
| TaskPlanner.PruningKeepsCycles | orchestrator/src/task_planner.cpp:194-205 | the pruned plan has exactly the cycles of the unpruned one |
| TaskPlanner.ParsedPlanIsClosed | orchestrator/src/task_planner.cpp:194-205 | no dependency of a parsed plan dangles |
| TaskPlanner.PlanAndLayer | orchestrator/src/task_planner.cpp:172-213 | layering a parsed plan succeeds if and only if its ids are unique and it has no cycle |
| TaskExecutor.Execute | orchestrator/src/task_executor.cpp:22-200 | for every timing: one result per task, each the answer of the agent that the task goes to, or one of the two timeout results spelled out; an answer is to a prompt that reports on each dependency in order as it ended; starts come after the outcome events of all dependencies, each outcome event tells its task's stored result, each answered task has its prompt, start event and outcome event; prompts are built before the deadline and answers taken with at least a millisecond left; the run breaks off only within a millisecond of the deadline or past it |
| TaskExecutor.UndisturbedIsMeaning | orchestrator/src/task_executor.cpp:41-200 | timeouts spread only to dependents: a task has its plain recursive meaning if no chain of dependencies that ends in it contains a timed-out task |
| TaskExecutor.RunParallel | orchestrator/src/task_executor.cpp:109-195 | any completion order of a layer's tasks settles exactly that layer |
| TaskExecutor.LaunchLayer | orchestrator/src/task_executor.cpp:122-147 | every launched task got the prompt determined by the results before the layer |
| TaskExecutor.RunSingle | orchestrator/src/task_executor.cpp:62-108 | the direct path settles its task, or stores a timeout after the start event and no other event |
| TaskExecutor.MarkRemaining | orchestrator/src/task_executor.cpp:46-58 | gives exactly the tasks of the remaining layers a global timeout and keeps all earlier results |
| TaskExecutor.ComputedIsMeaning | orchestrator/src/task_executor.cpp:41-200 | results that satisfy each task's equation are the plain recursive meaning of the plan |
| TaskExecutor.BuildSubtaskPrompt | orchestrator/src/task_executor.cpp:271-301 | a prompt is the description alone if no dependency has a result; else it goes on with the header, the reports in dependency order and the footer: "[d] description: result" for a successful one, the error message for a failed one, nothing for an absent one |
| TaskExecutor.PromptCarriesReports | orchestrator/src/task_executor.cpp:271-301 | the specified prompt carries these reports |
| TaskExecutor.ExecuteSubtaskAnswers | orchestrator/src/task_executor.cpp:303-355 | a task goes to its preferred agent if that is known, healthy and has an address, else to the routed one; the result carries its id and description with the response, the agent's error, or the text that no agent is available |
| TaskExecutor.Await | orchestrator/src/task_executor.cpp:152-166 | an answer is accepted only if it is there a millisecond before the deadline; what is given up is one of the two timeouts, with no time left |
| TaskExecutor.PromptReadsDependencies | orchestrator/src/task_executor.cpp:271-301 | a prompt depends only on the results of the task's own dependencies |
| TaskExecutor.Record | orchestrator/src/task_executor.cpp:99-108 | storing one more result disturbs no result already settled |
| TaskExecutor.CollectOne | orchestrator/src/task_executor.cpp:152-194 | collecting one future, in time or late, keeps all that the layer has achieved |
| TaskExecutor.Announce | orchestrator/src/task_executor.cpp:71-73 | a start event follows the outcome events of all dependencies |
| PostgresBudget.WouldExceedIsExact | common/src/postgres_budget_repository.cpp:95-103 | for used and requested in range it says exactly that the sum passes a non-zero limit or int64, with no overflow on the way |
| PostgresBudget.ReserveConserves | common/src/postgres_budget_repository.cpp:109-219 | a reservation keeps every counter equal to the sum of the reservations that belong to its bucket |
| PostgresBudget.ReserveMoves | common/src/postgres_budget_repository.cpp:186-214 | a counter rises by the requested tokens if the call is newly accepted and the bucket is one of its four, else not at all |
| PostgresBudget.AcceptedStaysWithinLimits | common/src/postgres_budget_repository.cpp:152-184 | after a new acceptance each of the four counters is within its non-zero effective limit and int64 |
| PostgresBudget.RetryIsHarmless | common/src/postgres_budget_repository.cpp:135-150 | after an accepted reservation and any further run of reservations and policy changes, a call with its request id changes nothing: idempotent for the owner, unavailable for others |
| PostgresBudget.FoundStaysFound | common/src/postgres_budget_repository.cpp:186-192 | no later request hides or replaces a stored reservation |
| PostgresBudget.RunsConserve | common/src/postgres_budget_repository.cpp:84-93 | conservation over every run of reservations and policy changes |
| PostgresBudget.ReserveByRows | common/src/postgres_budget_repository.cpp:51-61 | stated by sums over the reservation rows: a new call is accepted if and only if its tokens fit, in int64 and in the effective limit of each, beside all rows, the rows of its owner with that day, those of its owner with that month, and those of its owner and session; otherwise the reason names the first without room |
| PostgresBudget.RunsAnswerByRows | common/src/postgres_budget_repository.cpp:109-240 | the same after every run of reservations and policy changes, with the limits last set for the owner, or those of the call |
| PostgresBudget.LastPolicyIsInForce | common/src/postgres_budget_repository.cpp:152-163 | the effective limits are those of the last policy change of the owner, else those of the call |
| PostgresBudget.OwnLimitsHold | common/src/postgres_budget_repository.cpp:152-184 | while limits stay the same, an owner's daily, monthly and session counters never pass their non-zero limits |
| PostgresBudget.GlobalBoundIffEveryOwnerLimited | common/src/postgres_budget_repository.cpp:153-184 | the shared global counter is bounded by g in every run if and only if every owner's global limit is non-zero and at most g |
| PostgresBudget.Overrun | common/src/postgres_budget_repository.cpp:95-103 | an explicit run of one-token reservations by an owner without such a limit takes the counter to any height |
| PostgresBudget.Repository.ReserveTokens | common/src/postgres_budget_repository.cpp:109-219 | fails exactly for an empty id, an id with NUL, negative tokens or a negative limit, changing nothing; otherwise the transaction answers by the reservation rows (as `PostgresBudget.ReserveByRows`) and stores the row of a new acceptance |
| PostgresBudget.Repository.SetOwnerPolicy | common/src/postgres_budget_repository.cpp:221-240 | inserts or replaces the owner's limits; the limits of all others, the rows and the counters stay |
| PostgresConcurrency.Serialisable | common/src/postgres_budget_repository.cpp:123-217 | in every interleaving, aborts included, there is a serial history whose reservations are the calls of exactly the transactions that got the global lock and did not abort, one each, in lock order; every finished one got the answer of running whole at its place; with none in flight the tables are those of the history |
| PostgresConcurrency.TransactionsAreCalls | common/src/postgres_budget_repository.cpp:109-134 | a transaction carries out, to the letter and on its day, the first valid call made under its number, and every valid call has its transaction |
| PostgresConcurrency.AbortLeavesTables | common/src/postgres_budget_repository.cpp:123-217 | a rollback at any point leaves the tables as they were, and its call leaves the history |
| PostgresConcurrency.AbortKeepsInv | common/src/postgres_budget_repository.cpp:123-217 | aborting releases the locks and keeps locks, books and serial order in agreement |
| PostgresConcurrency.AlwaysConserved | common/src/postgres_budget_repository.cpp:123-217 | the committed books balance at every moment of every interleaving |
| PostgresConcurrency.InsertNeverConflicts | common/src/postgres_budget_repository.cpp:186-209 | the conflict fallback after the insert is unreachable |
| PostgresConcurrency.NoDeadlock | common/src/postgres_budget_repository.cpp:61-67 | whatever the hash of lock names, some transaction can step while one is unfinished, and steps run out |
| PostgresConcurrency.NextKeepsInv | common/src/postgres_budget_repository.cpp:123-217 | every step of every session keeps locks, books and serial order in agreement |
| PostgresConcurrency.StepBeforePlace | common/src/postgres_budget_repository.cpp:131-163 | the steps up to reading the policy leave the tables as the serial history says |
| PostgresConcurrency.StepAfterPlace | common/src/postgres_budget_repository.cpp:165-216 | the steps from the counters to the commit carry out the transaction's place in the history |
| RedisBudget.NeverOverAdmits | server/src/budget_middleware.cpp:113-188 | in every interleaving the costs that passed a tier and stand never exceed the tier's limit |
| RedisBudget.CountersShowLiveIncrements | server/src/budget_middleware.cpp:105-188 | each counter is exactly the sum of the increments that stand |
| RedisBudget.RejectedCallsNetZero | server/src/budget_middleware.cpp:129-184 | a rejected call's own steps add up to zero on every counter, an accepted call's to its cost on each of its four; the verdict is REQUEST_OVER if and only if the cost passes the request limit |
| RedisBudget.TierRejectsIffFull | server/src/budget_middleware.cpp:118-131 | a tier turns a call away, to be rolled back from the first tier on, if and only if what stands on its counter, doomed increments included, leaves no room for the cost |
| RedisBudget.RaceRejectsWhatNoOrderRejects | server/src/budget_middleware.cpp:116-131 | a whole family of races in which a call is rejected, while both orders of the whole calls accept it |
| RedisBudget.WholeCall | server/src/budget_middleware.cpp:99-188 | the interleaved steps of one call, run in a row, give REQUEST_OVER exactly if the cost passes the request limit, else the verdict of the first tier without room in the order global, daily, monthly, session, else OK; they charge all four counters if OK and leave everything as it was otherwise |
| RedisBudget.NetEffectIsShare | server/src/budget_middleware.cpp:116-188 | at any point a call's own steps have added exactly what it currently holds |
| RedisBudget.NextKeepsInv | server/src/budget_middleware.cpp:99-188 | every INCRBY of every caller keeps counters, holdings and limits in agreement |
| RedisBudget.KeysDiffer | server/src/budget_middleware.cpp:118-171 | the four counters of a call are four different keys |
| RedisBudget.SameKeyIff | server/src/budget_middleware.cpp:34-66 | for user ids, days and months without the separator: two calls share a counter if and only if it is of the same tier and user and day, user and month, or user and context agree; the global one always |
| RedisBudget.SessionKeysIff | server/src/budget_middleware.cpp:34-37 | for arbitrary ids: two session keys are equal if and only if user and context agree or one user id is the other's followed by the separator and the beginning of its context |
| RedisBudget.CountersAreByBudget | server/src/budget_middleware.cpp:99-188 | in every interleaving a counter shows exactly what the calls of the same user and day, user and month, user and context, or all calls, have standing |
| RedisBudget.SerialVerdicts | server/src/budget_middleware.cpp:99-188 | calls one after the other: the verdict is that of the first limit that the accepted costs of the same budget leave no room under |
| RedisBudget.CallersAreArrivals | server/src/budget_middleware.cpp:68-112 | the callers of a run are the calls that arrived, in order and to the letter |
| RedisBudget.Store.CheckAndDeduct | server/src/budget_middleware.cpp:99-188 | the same of the code, undisturbed: the verdict names the first limit without room, and the counters change accordingly or not at all |
| RedisBudget.Store.Charge | server/src/budget_middleware.cpp:116-131 | charging one tier adds the cost to its counter and returns the new total |
| RedisBudget.Store.RollBack | server/src/budget_middleware.cpp:105-110 | rolling back takes the cost out of the tiers charged so far, and all counters are as before the call |
| MessageLog.AppendKeepsGapless | common/src/query_domain_repository.cpp:284-357 | an append keeps each conversation numbered 1 to n and earlier rows as they were |
| MessageLog.NextNumber | common/src/query_domain_repository.cpp:328-329 | maximum plus one is count plus one |
| MessageLog.RepeatReturnsStored | common/src/query_domain_repository.cpp:305-314 | a repeated message id returns the stored row and uses up no number, from any conversation and any time later |
| MessageLog.AppendStoresText | common/src/query_domain_repository.cpp:284-357 | the specified append does the same, row by row and field by field |
| MessageLog.RunsStayGapless | common/src/query_domain_repository.cpp:215-357 | every run of ensures and appends stays gapless |
| MessageLog.Repository.AppendAutoSequence | common/src/query_domain_repository.cpp:284-357 | if the conversation is the owner's and the id is new, exactly one row is added, at the end, with the caller's id, owner, conversation, role and content and number count + 1, and it is returned; a stored id of the owner returns its row, one of another owner or a foreign conversation nothing, and nothing changes |
| MessageLog.Repository.Ensure | common/src/query_domain_repository.cpp:215-256 | creates the conversation for the owner, or reports whether it is the owner's; all other rows stay |
| MessageConcurrency.AlwaysGapless | common/src/query_domain_repository.cpp:284-357 | in every reachable state of concurrent appends the committed numbers are 1 to n in commit order |
| MessageConcurrency.RowsNeverChange | common/src/query_domain_repository.cpp:321-342 | committed messages are never altered or reordered |
| MessageConcurrency.Serialisable | common/src/query_domain_repository.cpp:284-357 | the tables are those of a serial history whose appends are the calls of exactly the finished transactions, one each; every answer is that of the whole append at its place; aborted ones are nowhere in it |
| MessageConcurrency.FinishedAppendIsStored | common/src/query_domain_repository.cpp:284-357 | over concurrent runs each finished append did that at its place in the history, and what it stored is among the committed rows for good |
| MessageConcurrency.TransactionsAreAppends | common/src/query_domain_repository.cpp:284-287 | a transaction carries out the first append begun under its number, to the letter |
| MessageConcurrency.RepeatReturnsStoredRow | common/src/query_domain_repository.cpp:300-357 | over concurrent runs: of two finished appends with one message id and owner the later returns the row of the earlier, if it names a conversation of the owner, and changes nothing |
| MessageConcurrency.NextKeepsMatched | common/src/query_domain_repository.cpp:284-357 | every step, aborts included, keeps the history in one-to-one correspondence with the finished appends |
| MessageConcurrency.NoDeadlock | common/src/query_domain_repository.cpp:288-296 | while an append is unfinished some append can step, and every step brings its append strictly closer to its end |
| MessageConcurrency.OnlyIdsViolate | common/src/query_domain_repository.cpp:321-339 | an insert under the row lock can only collide on the message id, never on a sequence number |
| QueryPipeline.EffectsHappenAtMostOnce | server/src/ai_query_service.cpp:187-413 | over any interleaving of runs each request has at most one reservation, ledger row, user message and assistant message, all owned by the owner of its log row; counters stay conserved and conversations gapless |
| QueryPipeline.TerminalStateWrittenOnce | server/src/ai_query_service.cpp:264-332 | no run writes a terminal state to its log row twice, aborts after rejection or success included |
| QueryPipeline.TerminalWriteIsReal | server/src/ai_query_service.cpp:264-356 | over any interleaving, the count of terminal writes goes up exactly when the owner's log row gets the status and text that the run carries, and no log row changes otherwise |
| QueryPipeline.DeliveredIsCarried | server/src/ai_query_service.cpp:322-356 | a run carries the status it was ended with and the response, or the error if that is empty; an abort carries "failed" |
| QueryPipeline.CarriedStays | server/src/ai_query_service.cpp:322-356 | until the log row is written, which ends it, or another finalization went first |
| QueryPipeline.RunsAreStarts | server/src/ai_query_service.cpp:187-241 | the runs are the starts, in order; each keeps its owner, conversation, request and question to the end |
| QueryPipeline.LedgerBackedIffLimitsValid | server/src/ai_query_service.cpp:256-262 | a ledger row implies a reservation in every run if and only if no configured limit is negative |
| QueryPipeline.EffectsAreFinal | common/src/query_domain_repository.cpp:515-540 | messages, ledger rows and reservations only ever grow |
| QueryPipeline.FirstFinalizationWinsIff | server/src/ai_query_service.cpp:334-412 | a second finalization of a request adds no ledger row, and no message unless it brings the first answer: the tables of messages stay if and only if the first had an answer, the second has none, the assistant message was stored before, or the conversation is not the second owner's |
| QueryPipeline.FinalizeInSteps | server/src/ai_query_service.cpp:322-413 | the single steps of a finalization add up to the whole |
| QueryPipeline.FinalizedIsFinalization | server/src/ai_query_service.cpp:334-412 | the specified finalization leaves exactly these rows |
| QueryPipeline.ReserveInSteps | server/src/ai_query_service.cpp:243-294 | the single steps of a reservation, or of a refusal, add up to the whole, with these rows |
| QueryPipeline.NextKeepsInv | server/src/ai_query_service.cpp:187-427 | every step of every run keeps all effects rooted in the owner's log row |
| QueryPipeline.Service.BeginDurableRows | server/src/ai_query_service.cpp:187-241 | succeeds if and only if conversation, log row and trace row are each absent or the owner's; then all three are there and the owner's, a new log row running and empty; messages, ledger, budget and all other rows stay |
| QueryPipeline.BeginningIsSafe | server/src/ai_query_service.cpp:187-241 | the same of the specification, and new rows are running and for that conversation |
| QueryPipeline.BeginInSteps | server/src/ai_query_service.cpp:187-241 | the single steps that interleave in a run add up to it |
| QueryPipeline.Service.ReserveBudgetOrReject | server/src/ai_query_service.cpp:243-294 | reserves 64 tokens and a quarter of the question for owner and conversation, decided by the rows, or, if refused, leaves the owner's log row with "rejected" and the reason and its trace row with "rejected", sets the flag and changes nothing else; invalid limits change nothing |
| QueryPipeline.Service.FinalizeDurableQuery | server/src/ai_query_service.cpp:322-413 | the first time: the owner's log row keeps owner and conversation and gets the status and the response, or the error if that is empty; the trace row gets the status; a new ledger row has the estimate and a quarter of the response; question and response are appended as messages; all other rows stay. Afterwards nothing changes |
| CircuitBreaker.StuckIff | common/src/circuit_breaker.cpp:15-118 | for every configuration: some run, in which only requests that were let in report, leaves the breaker in HALF_OPEN with no probe allowed and no request running if and only if the needed successes come before the quorum and the rate can open the breaker with failure_threshold − 2 failures |
| CircuitBreaker.FailuresSurviveIff | common/src/circuit_breaker.cpp:84-118 | for every configuration: all runs have at least failure_threshold failures on record outside CLOSED, and count only successes in HALF_OPEN, if and only if the rate cannot open the breaker with fewer |
| CircuitBreaker.ProductIsEnough | common/src/circuit_breaker.cpp:111-118 | they do if failure_threshold ≤ rate threshold × minimum count and the latter is positive |
| CircuitBreaker.HalfOpenIsHealthyIff | common/src/circuit_breaker.cpp:15-64 | for every configuration: in each reachable HALF_OPEN state a probe is allowed, any failure reopens and the missing successes close, if and only if 1 ≤ success threshold < minimum request count and the rate does not trip early |
| CircuitBreaker.OpenRecoversIff | common/src/circuit_breaker.cpp:44-64 | for every configuration: after the timeout a request is let through, and the needed successes close the breaker with clean counters if and only if they come before the quorum or the old failures are below its share; otherwise it is open again |
| CircuitBreaker.StuckStaysShut | common/src/circuit_breaker.cpp:58-59 | a stuck breaker denies every later request, whatever the time |
| CircuitBreaker.EarlyTripSticks | common/src/circuit_breaker.cpp:92-118 | the explicit run that gets stuck: trip on the rate, half-open, one failed probe, one success too few, each report after its request |
| CircuitBreaker.ManyFailuresBlockRecovery | common/src/circuit_breaker.cpp:92-118 | if the minimum request count is within the probes, a breaker with enough old failures reopens although every probe succeeds |
| CircuitBreaker.NextKeepsInv | common/src/circuit_breaker.cpp:15-118 | every operation, reset included, keeps the failure floor and counts no failed probe in HALF_OPEN |
| CircuitBreaker.NextKeepsQuorumInv | common/src/circuit_breaker.cpp:15-118 | the same when the rate is looked at while probing |
| CircuitBreaker.NextKeepsProbe | common/src/circuit_breaker.cpp:44-64 | behind a half-open breaker that has counted nothing, the request that half-opened it is running |
| CircuitBreaker.RatedIsShare | common/src/circuit_breaker.cpp:111-118 | the quotient test opens the breaker exactly from the quorum on and at the share failed ≥ threshold × total |
| CircuitBreaker.DefaultsAreSafe | common/include/agent_rpc/common/circuit_breaker.h:22-29 | the default configuration cannot get stuck; with a failure threshold of 7 it can |
| CircuitBreaker.Breaker.RecordSuccess | common/src/circuit_breaker.cpp:15-28 | counts, applies the rate rule, then closes from HALF_OPEN when enough succeeded |
| CircuitBreaker.Breaker.RecordFailure | common/src/circuit_breaker.cpp:30-42 | counts, applies the rate rule, then opens at the threshold |
| CircuitBreaker.Breaker.IsRequestAllowed | common/src/circuit_breaker.cpp:44-64 | the answer and the new state for each mode |
| CircuitBreaker.Breaker.ResetAll | common/src/circuit_breaker.cpp:71-77 | back to the fresh closed state |
| Base64.DecodeInvertsEncode | mcp_server_integrated/include/base64.hpp:494-678 | every byte string encodes to an accepted text that decodes to it |
| Base64.EncodeInvertsDecodeIffCanonical | mcp_server_integrated/include/base64.hpp:494-678 | re-encoding a decoded text gives it back if and only if the unused bits of its last symbol are zero |
| Base64.EncodeInto | mcp_server_integrated/include/base64.hpp:494-554 | the table-driven loop writes the RFC 4648 groups: four 6-bit values of each 24-bit group, padded |
| Base64.EncodeLast | mcp_server_integrated/include/base64.hpp:527-548 | the switch on the remainder writes the last group over the padding signs |
| Base64.DecodeInto | mcp_server_integrated/include/base64.hpp:565-678 | accepts exactly whole groups over the alphabet with at most two padding signs, all at the end; returns their octets; which of the three errors otherwise |
| Base64.DecodeGroups | mcp_server_integrated/include/base64.hpp:594-621 | the loop over whole groups appends their octets or rejects |
| Base64.DecodeLast | mcp_server_integrated/include/base64.hpp:623-675 | the padded group gives one or two octets or is rejected |
| Base64.GroupWord | mcp_server_integrated/include/base64.hpp:600-620 | the or-ed 32-bit word is too large exactly if a character is outside the alphabet; otherwise its low bytes are the octets of the group |
| Base64.TablesOfGroup | mcp_server_integrated/include/base64.hpp:514-523 | masks, shifts and the two encoding tables produce the four symbols of the 24-bit group |
| Base64.AlphabetIsTable1 | mcp_server_integrated/include/base64.hpp:472-491 | the 64 symbols are those of Table 1 of RFC 4648, in order, and the padding sign is "=" |
| Utf8Keywords.RoundTripIffNarrow | orchestrator/src/agent_router.cpp:39-84 | decoding an encoded text returns it if and only if all code points are below 2^21 |
| Utf8Keywords.DecodeOne | orchestrator/src/agent_router.cpp:39-63 | decoding at an encoded code point returns it and consumes its bytes exactly if it is below 2^21 |
| Utf8Keywords.OccurrenceIsAligned | orchestrator/src/agent_router.cpp:98 | self-synchronisation, for any 32-bit numbers: wherever the bytes of a keyword occur, its code points, or numbers of the same code, occur there |
| Utf8Keywords.MatchingIsByCodePoint | orchestrator/src/agent_router.cpp:94-117 | for any 32-bit numbers: the byte search matches if and only if the code points of the keyword, or numbers of the same code, occur in a row, as a whole word for ASCII keywords |
| Utf8Keywords.SameCodeIff | orchestrator/src/agent_router.cpp:66-84 | two numbers have the same code if and only if they are equal, or both are 2^16 or more and agree in 22 bits |
| Utf8Keywords.AlikeIsEqual | orchestrator/src/agent_router.cpp:66-84 | for numbers below 2^21, or with one side below 2^16, the same codes mean the same text |
| Utf8Keywords.BigramMatchIsExact | orchestrator/src/agent_router.cpp:94-117 | a CJK bigram matches any encoded text if and only if its two code points stand side by side there |
| Utf8Keywords.BigramsFindSharedPairs | orchestrator/src/agent_router.cpp:576-587 | some bigram keyword of a description matches the lower-cased question if and only if both contain the same adjacent CJK pair |
| Utf8Keywords.LoweringCommutes | orchestrator/src/agent_router.cpp:461-465 | lower-casing bytes is lower-casing code points |
| Utf8Keywords.CodesArePrefixFree | orchestrator/src/agent_router.cpp:66-84 | no code of a 32-bit number is a proper prefix of another |
| Utf8Keywords.DecodeUtf8 | orchestrator/src/agent_router.cpp:39-63 | the byte-by-byte assembly is the specified decoding, truncated and malformed bytes included, and always advances |
| Utf8Keywords.MatchKeyword | orchestrator/src/agent_router.cpp:94-117 | the loop finds a match exactly if some occurrence counts |
| Utf8Keywords.DescriptionBigrams | orchestrator/src/agent_router.cpp:576-587 | the collected keywords are exactly the adjacent CJK pairs of the decoded description |
| Utf8Keywords.CjkIsInBlocks | orchestrator/src/agent_router.cpp:86-89 | CJK are exactly the code points of the blocks CJK Extension A and CJK Unified Ideographs |
| AgentIndex.SearchCorrectIffNoStale | server/src/agent_service.cpp:643-725 | FindAgents agrees with a linear scan, cut at the limit, on every request if and only if no live agent has a stale entry |
| AgentIndex.SearchCorrectThroughoutIff | server/src/agent_service.cpp:613-725 | every search at every moment of a run is the answer of a linear scan if and only if no registration of the run takes a searchable tag or skill from the live agent it replaces |
| AgentIndex.RegisterKeepsSearchIff | server/src/agent_service.cpp:339-345 | after a registration on indexes exact for non-empty keys, search is right, and the indexes exact again, if and only if the registration kept the searchable tags and skills of the agent it replaced |
| AgentIndex.RegisterKeepsExactIff | server/src/agent_service.cpp:613-621 | registration keeps exact indexes exact if and only if nothing live is taken away |
| AgentIndex.GrowingRunsAreExact | server/src/agent_service.cpp:613-641 | in runs whose re-registrations take nothing away the indexes are exact, empty keys included |
| AgentIndex.AlwaysComplete | server/src/agent_service.cpp:98-119 | no false negatives in any run: each live agent is listed under its current tags and skills |
| AgentIndex.RemoveKeepsExact | server/src/agent_service.cpp:623-641 | removal keeps exact indexes exact and leaves no empty entry |
| AgentIndex.Directory.RegisterAgent | server/src/agent_service.cpp:339-345 | stores the agent with its heartbeat time, lists it under each of its tags and skills, and removes nothing |
| AgentIndex.Directory.UpdateHeartbeat | server/src/agent_service.cpp:90-96 | a known agent gets the time and nothing else changes |
| AgentIndex.DirectoryTellsRun | server/src/agent_service.cpp:90-119 | over every run: an agent is in the directory if and only if a registration of its id was not followed by a removal; it has the data of the last registration and the time of the last registration or heartbeat |
| AgentIndex.Directory.UnregisterAgent | server/src/agent_service.cpp:440-447 | takes the agent out of the entries of its current tags and skills and of no others, then out of the map |
| AgentIndex.Directory.CleanupOfflineAgents | server/src/agent_service.cpp:98-119 | removes exactly the agents whose last heartbeat is more than 300 seconds old, one by one |
| AgentIndex.Directory.FindAgents | server/src/agent_service.cpp:643-725 | returns, ascending and without repetition, agents that stand under the tag and the skill in the indexes and have the keyword as a substring of their service name, at most the limit (100 if not positive); one that is left out means that the limit is reached and all returned ids are smaller |
| AgentIndex.SearchAnswerIsFound | server/src/agent_service.cpp:689-725 | the specified walk returns such an answer |
| AgentIndex.ContainsIff | server/src/agent_service.cpp:697-700 | the keyword test holds if and only if the keyword occurs at some position |
| AgentIndex.Directory.Candidates | server/src/agent_service.cpp:655-687 | the branches over tag and skill amount to the conjunction of the two look-ups |
| HealthWindow.RingCountsWindow | registry/src/service_registry.cpp:68-76 | the successes in the written slots are the successes among the last min(n, 100) calls |
| HealthWindow.RingIsRotatedWindow | registry/src/service_registry.cpp:27-30 | the ring is the window of the last 100 calls, rotated |
| HealthWindow.HealthCountsFailures | registry/src/service_registry.cpp:78-87 | HEALTHY means at most one failure in twenty and an average below 5000; DEGRADED or better at most one in five and below 30000 |
| HealthWindow.EmaStaysBetween | registry/src/service_registry.cpp:32-38 | the average stays between the smallest and largest recorded latency, for latencies of any sign |
| HealthWindow.EmaIsWeightedSum | registry/src/service_registry.cpp:32-38 | the average is a sum in which each call weighs 0.1, the first one 1, times 0.9 for every later call; an average that reaches 0 starts over with the next call |
| HealthWindow.EmaOfPositiveLatencies | registry/src/service_registry.cpp:32-38 | with positive latencies it never starts over: the whole history is in the sum |
| HealthWindow.OldOutcomesForgotten | registry/src/service_registry.cpp:27-30 | outcomes before the last hundred calls have no influence on the rate |
| HealthWindow.LiveMetrics.Record | registry/src/service_registry.cpp:22-41 | recording extends the history by the call |
| HealthWindow.LiveMetrics.Evaluate | registry/src/service_registry.cpp:50-87 | the counting loop classifies the true window |
| HealthWindow.Registry.RecordAgentCall | registry/src/service_registry.cpp:22-41 | extends that agent's history and no other, creating it on the first call |
| HealthWindow.Registry.EvaluateHealth | registry/src/service_registry.cpp:43-88 | UNKNOWN without calls, otherwise the classification of the agent's true window |

## Left out

- Balancers: round robin, random, least connections, least response time; selection by a random key; `std::stoi` (a parameter).
- Consistent hash: the FNV hash itself, which is a parameter.
- ConsistentHash.FlipMovesOnlyItsOwnKeys: assumes that the hash does not collide on the virtual node keys; with a collision the order of `std::sort` would decide.
- WeightedRoundRobin.NoIntOverflow: speaks of runs from a fresh pool with non-negative healthy weights; counters that leave 32 bits are integers here, where the code overflows.
- WeightedRoundRobin.SumSurvivesHealthFlips: Wn ≤ INT_MAX is sufficient and W(n−1) ≤ INT_MAX is not, but pools in between are not characterised; negative weights are left to the per-selection condition of `WeightedRoundRobin.SumKeptIffCharged`.
- Planner and executor: prompts to the planner, JSON text, agent routing beyond an environment that answers deterministically, result summaries, durations, trace spans, and exceptions thrown by the progress callback.
- TaskExecutor.RunSingle: a task that times out here has a start event and no outcome event, as in the code.
- Durable budget: `usage()`; SQL text; faults other than a rollback of the whole transaction; the `FOR UPDATE` lock on the policy row, which makes policy changes wait where the model lets them through; one clock per transaction is a parameter.
- PostgresBudget.GlobalBoundIffEveryOwnerLimited: for bounds above 0 and below the largest int64, and limits that `validateLimits` accepts.
- Redis budget: calls while Redis is absent (they pass) or failing, key expiry, and a date rollover in mid-call; limits and costs are parameters.
- RedisBudget.CountersAreByBudget: for user ids, days and months without ":"; for other user ids two users can share a counter, as `RedisBudget.SessionKeysIff` says.
- RedisBudget.SerialVerdicts: under the same hypothesis.
- PostgresBudget.ReserveByRows: for books whose counters are the sums of their rows, which `PostgresBudget.RunsConserve` proves of every run; rows lost or changed by others are not modelled.
- MessageConcurrency.Serialisable: `ensureConversation` is one atomic step there, its subtransaction race is not split up.
- Query pipeline: faults of the store inside the durable steps, absent repositories, agent and stream traffic, Redis bookkeeping, the trace payload, the title and the model name; log and trace rows of two runs of one request may disagree.
- CircuitBreaker.StuckIff: a breaker whose admitted probe never reports is not counted as stuck; with a success threshold of 0 or less it would wait for that one for ever.
- Circuit breaker: the write-only times of the last success and failure, the counter of rejected requests, 32-bit counters, changing the configuration within a run.
- Base64: the big-endian tables; the look-up tables are given by their generating rule, not entry by entry; the overloads that only forward.
- UTF-8: the letters and digits of `isalnum` and `tolower` are those of the C locale.
- Router: keywords from skill names and English words, stop words, weights, scores and embeddings.
- Agent directory: message queues, liveness times, authentication, persistence and the copy of the agent fields into the response (the model returns ids).
- Health: rounding (rates and averages are reals), active request counts, the dashboard log, 32-bit overflow of the write counter.
