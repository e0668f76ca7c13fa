# Verified models of the orchestration, reliability and storage core

This project models, in Dafny, the parts of the platform whose correctness depends on many
steps taken together: the reasoning-graph scheduler with its budgets and watchdog, the
circuit breaker around retries and timeouts, the token-bucket limiter, the semantic cache,
the text chunker, vector maintenance, fact resolution, and three wire formats.

`dafny verify dfyconfig.toml` checks everything.

## How the models are built

Objects that the source updates in place are classes with the same fields; each method is
tied, by its postcondition, to a function on the value of the object. Loops stay loops.
The theorems are lemmas about those functions.

Concurrency is asyncio's: code between two awaits is one atomic step. A coroutine is split
at its awaits into step functions, a run is a sequence of states related by steps, and the
theorems hold for every run, that is, for every interleaving. The methods on the engine get
what other coroutines will do to its context slot as an input (`others`); how much of it
happens at which await is left open. `EngineRuns.OthersSeen` shows that this is all that
other executions on the engine can do.

| file | what it models |
|---|---|
| `ReasoningGraph.dfy` | the graph, its limits, ready nodes, depths and acyclicity; the planner's insertion loop |
| `GraphRanks.dfy` | acyclicity as a ranking; what stored depths mean when dependencies are named before they exist |
| `AgentBudget.dfy` | the per-execution counters and `check` |
| `GraphRuns.dfy`, `GraphEndState.dfy` | node executions as a step system: invariant, schedule independence, reference evaluation, end state, budget bounds |
| `EngineRuns.dfy` | any number of executions on one engine, whose context slot they share |
| `Execution.dfy` | `_execute_node`, `gather`, both strategies and the budget steps of `_run_agent_graph`, as methods on the mutable graph, in the middle of other executions |
| `SwarmBatches.dfy` | batch sizes and the counter shared by concurrent executions |
| `Watchdog.dfy`, `WatchdogRuns.dfy` | registry, polling monitor, guarded calls; deadlines over all interleavings |
| `FailureTracker.dfy`, `CircuitBreaker.dfy`, `BreakerRuns.dfy` | sliding window, breaker, and every run of a breaker |
| `LlmCalls.dfy` | retry with jitter, and breaker over retry over timeout |
| `TokenBucket.dfy` | the Lua script: conformance, rate bound, expiry |
| `SortedSets.dfy`, `SemanticCache.dfy`, `CacheRuns.dfy` | the cache: lookup, LRU refinement, and concurrent callers |
| `Chunker.dfy` | overlapping sentence chunks |
| `VectorMaintenance.dfy`, `VectorStore.dfy` | maintenance pipeline and record store |
| `Authority.dfy` | stable sort, conflict detection, fact resolution |
| `Wrappers.dfy`, `Collections.dfy` | shared helpers |
| `Base64Url.dfy`, `Jwt.dfy`, `PluginFrames.dfy` | unpadded base64url, JWT compact form, length-prefixed frames |

## Where the code and its comments disagree

The models follow the code; each item names the lemma that makes the difference exact.

- The engine keeps the context of the last `execute` that began in a slot which every node
  of every execution reads again (`app/reasoning_graph/engine.py:57`, 78, 106 and 141). When
  executions overlap on one engine, nodes are charged to, checked against and saved in
  another execution's context: one with a single node left can run more, and its results
  turn up in a context that ran nothing (`TakenSlotOverruns`). An execution stays with its
  own context if and only if no other `execute` begins before its last step
  (`OwnedIffUndisturbed`); its bound then holds (`OwnedIsPaid`). What holds in every case is
  the bound for all executions together (`TotalIsPaid`).
- `app/reliability/circuit_breaker.py:13` says that any failed probe reopens the breaker.
  The code reopens only at the threshold; the comment holds if and only if the threshold is
  at most one (`AnyFailureReopensIff`).
- The quota of probes can be used up with nothing left in flight, and then every later call
  is rejected for good (`StuckForever`). Without cancelled calls this happens to a breaker if
  and only if its threshold is at least two and within the tracker's capacity, because probes
  may fail too far apart to reach it (`StuckReachableIff`). A cancelled probe runs neither
  handler (`app/reliability/circuit_breaker.py:144` catches only `Exception`), so with
  cancelled calls it can happen to every breaker that can open, a threshold of one included
  (`CancelledStuckIff`).
- With the orchestrator's default settings a sequential caller whose LLM never answers
  never opens the breaker, because one call takes longer than the window
  (`DefaultOutage`; the exact condition for evenly spaced failures is `SpacedFailures`).
- `add_node` skips dependencies that are not in the graph yet, so a forward reference can
  close a cycle (`ForwardReferenceMakesCycle`); the exact guard is `AddClosedIff`. In an
  acyclic graph it can still leave a chain longer than the depth limit
  (`ForwardReferenceExceedsDepth`); the stored depths are the real ones if and only if they
  satisfy the depth equation (`DepthExactIff`).
- A cancelled round never gives its agents back to the shared counter; once one fewer than
  the limit have leaked, every later batch has one node (`LeakSerialises`), and an execution
  that has the object to itself is not cut down before that (`LeakSerialisesIff`). The limit
  itself can be exceeded without any cancellation, by exactly as much as `Peak` says
  (`PeakBound`, `BoundIsTight`).
- A breaker that lets calls through again can still count as many failures as its threshold,
  unless its recovery time is longer than its window (`HealthIff`). The orchestrator's own
  breaker recovers after 30 seconds of a 60-second window, so it does (`DefaultUnhealthy`).
- The timestamp that a cache hit writes after its await can put back a key that was removed
  in between, above the size limit (`TouchCanExceed`); `TouchExact` says when it does,
  whatever else is under way.
- Overlapping calls of `set` can each remove what the other has already removed, and with it
  the key set last (`LatestCanBeLost`). A key survives a stretch of a run if and only if no
  step in it invalidates it, clears the cache, or lists it among the oldest keys when as many
  as were once too many are listed (`SafeThroughoutIff`, `ListedIff`).
- The limiter's key expires on the clock of Redis, while its refill uses the clock of the
  caller. Expiry goes unnoticed if and only if the bucket refills within its time to live
  less the skew of the clocks (`ExpiryInvisibleIff`); with the default tiers, for a skew of
  up to 60 seconds (`DefaultTiers`).
- A maintenance run that removes something stale skips deduplication, so two runs can be
  needed where one is expected (`SecondRunIdleIff`).
- `app/memory/authority.py:132` says later messages always win. All facts of one extraction
  carry one timestamp, so the earliest statement of a key wins (`EarliestStatementWins`).
- `app/memory/authority.py:198` says a conflict needs two or more sources; two differing
  values from one source are enough (`Authority.DetectConflicts`). The winner a conflict
  reports is not the resolved fact when it is a knowledge-graph fact below the threshold
  (`ResolvedIsWinnerIff`). A fact exactly at the threshold is kept, although the module
  header asks for more than 0.8.
- `_parse_response` returns the part of a truncated payload that is there, an empty payload
  and a payload over the limit, where `read_message` returns nothing (`ReadersAgreeIff`).
- A negative sentence overlap skips sentences (`NothingSkippedIff`).

## Model

| member | source | states |
|---|---|---|
| ReasoningGraphs.DepthOfExact | app/reasoning_graph/models.py:44-49 | a node is put exactly one below its deepest known dependency; the call raises if and only if it names dependencies and knows none |
| ReasoningGraphs.AddExact | app/reasoning_graph/models.py:40-54 | exactly which insertions are accepted, with which error the others are refused, and what an accepted one changes |
| ReasoningGraphs.AddKeepsDepths | app/reasoning_graph/models.py:40-54 | an insertion with a fresh id and present dependencies keeps the graph closed and the depth equation |
| ReasoningGraphs.AddClosedIff | app/reasoning_graph/models.py:48 | with a fresh id the graph stays closed and acyclic if and only if every dependency was already present |
| ReasoningGraphs.ForwardReferenceMakesCycle | app/reasoning_graph/models.py:48-54 | three accepted insertions that leave a closed graph with a cycle |
| ReasoningGraphs.LimitsHold | app/reasoning_graph/models.py:36-52 | any sequence of accepted insertions, in any order, respects the node limit, and the stored depths the depth limit; stored depths need not be real ones |
| ReasoningGraphs.OrderedPlanIsDag | app/agents/planner_agent.py:77-87 | a plan in dependency order yields a closed acyclic graph whose stored depths are the longest dependency-chain lengths |
| GraphRanks.RankedIffAcyclic | app/reasoning_graph/models.py:56-65 | a closed graph can be ranked along its dependencies if and only if it is acyclic |
| GraphRanks.DepthExactIff | app/reasoning_graph/models.py:44-52 | in a closed graph the stored depths are the longest chain lengths if and only if they satisfy the depth equation |
| GraphRanks.ChainsWithinLimit | app/reasoning_graph/models.py:51-52 | where the depth equation holds, no dependency chain is longer than the limit |
| GraphRanks.ForwardReferenceExceedsDepth | app/reasoning_graph/models.py:48-54 | three accepted insertions that leave a closed acyclic graph with a chain longer than the limit |
| ReasoningGraphs.ReadyExact | app/reasoning_graph/models.py:56-65 | the scan returns exactly the pending nodes whose dependencies are all completed, once each, and cannot raise on a closed graph |
| ReasoningGraphs.ReadyInOrder | app/reasoning_graph/models.py:58-64 | the ready nodes come in insertion order |
| ReasoningGraphs.ScanFailsIff | app/reasoning_graph/models.py:62 | the scan raises if and only if it comes to a pending node with a missing dependency before any uncompleted one |
| ReasoningGraphs.ReasoningGraph.AddNode | app/reasoning_graph/models.py:40-54 | the mutable graph ends as the value the insertion function gives, or unchanged with the error |
| ReasoningGraphs.ReasoningGraph.GetReadyNodes | app/reasoning_graph/models.py:56-65 | the loop returns the nodes of the specified scan, in order, or fails where the scan fails |
| ReasoningGraphs.ReasoningGraph.DepthFor | app/reasoning_graph/models.py:45-49 | the generator inside `max` computes the specified depth |
| ReasoningGraphs.ReasoningGraph.AllCompleted | app/reasoning_graph/models.py:62 | the short-circuit over dependencies, its `KeyError` included |
| ReasoningGraphs.BuildPlan | app/agents/planner_agent.py:77-113 | whatever fields the parsed nodes have, the planner's loop builds the graph of all insertions, or the one-node fallback if any of them fails |
| AgentBudget.CountersExact | app/orchestrator/watchdog.py:87-121 | after any sequence of operations the counters are the numbers of recorded events and no limit has changed |
| AgentBudget.ExhaustionPermanent | app/orchestrator/watchdog.py:123-154 | once a check would fail, every later check fails, whatever happens in between |
| AgentBudget.AgentExecutionContext.Check | app/orchestrator/watchdog.py:123-154 | raises if and only if the first limit in the source's order is reached, and records that reason |
| GraphRuns.StepKeepsInv | app/reasoning_graph/engine.py:65-163 | every step, those of other executions included, keeps the execution invariant: shape fixed, nodes start after their dependencies complete, at most one start each, results right, finishing order topological |
| GraphRuns.RunKeepsInv | app/reasoning_graph/engine.py:65-163 | the invariant holds in every state of every run |
| GraphRuns.EndedAgree | app/reasoning_graph/engine.py:82-126 | a node that ended in one run has the same status and result in any other run that went to its end, cycles allowed |
| GraphRuns.ScheduleIndependence | app/swarm/execution.py:81-109 | two executions that ran to the end, no budget check having raised, leave the same graph, whatever was started when and whatever other executions did |
| GraphRuns.EndedIsDelivered | app/reasoning_graph/engine.py:82-161 | in every state of every run an ended node without an agent holds the reply of its service: a reasoning node that of the model to its task with the stored results of its dependencies, a tool node that of the parsed call, an unparsable call the parse error, a lookup that of the retriever; a failure is stored as `Error: ` and its message |
| GraphRuns.EndIsSettled | app/swarm/execution.py:50-109 | at the end of a run, cycles allowed, a node without an agent has ended with that reply if and only if all its dependencies completed, and is untouched otherwise |
| GraphRuns.SettledIsReference | app/reasoning_graph/engine.py:82-163 | in a closed acyclic graph this determines every node: it is what the recursive evaluation says |
| GraphRuns.AllowExact | app/reasoning_graph/engine.py:78-108 | what the two budget checks of a starting node count, and exactly when they let it go on |
| GraphRuns.ReferenceReached | app/reasoning_graph/engine.py:82-163 | in every closed acyclic graph each node is settled at the end, and its status and result are those of one recursive evaluation of the graph, no budget check having raised |
| GraphRanks.DepthsRank | app/reasoning_graph/models.py:44-49 | the stored depths of a plan in dependency order are such a ranking |
| GraphEndState.EndStateExact | app/swarm/execution.py:81-109 | at the end of any run of a closed graph, cyclic or not, a node is pending if and only if it lies on or below a cycle or below a failed or stuck node |
| GraphEndState.BudgetBound | app/reasoning_graph/engine.py:57-142 | in every state of every run in which no other context took the slot: nodes and tools that ran stay below what the budget had left; if no other execution was charged to it either, each completed node has exactly one saved result |
| GraphEndState.StepKeepsBudget | app/reasoning_graph/engine.py:57-149 | every step, including other executions charging or replacing the context in the slot, keeps the accounting as far as it can hold |
| EngineRuns.EveryExecution | app/reasoning_graph/engine.py:45-163 | in every interleaving of executions on one engine, each keeps all invariants of an execution on its own |
| EngineRuns.EventIsStep | app/reasoning_graph/engine.py:57-149 | every event of the engine is, for each execution, one step of its own system |
| EngineRuns.OthersSeen | app/reasoning_graph/engine.py:57-149 | to an execution, every event of another one is exactly one of the changes of the slot that the methods on the engine are interleaved with |
| EngineRuns.OwnedIffUndisturbed | app/reasoning_graph/engine.py:57-142 | every node of an execution is charged to and saved in its own context if and only if no other `execute` begins on the engine before its last step |
| EngineRuns.OwnedIsPaid | app/reasoning_graph/engine.py:57-142 | under that condition the nodes and tools it ran stay below what its own budget had left, whatever begins later |
| EngineRuns.SavedExact | app/reasoning_graph/engine.py:141-142 | in every interleaving a context holds what it came with and then exactly the values delivered, by whatever execution, while the slot held it, in that order |
| EngineRuns.OwnSavesOnce | app/reasoning_graph/engine.py:141-142 | if the values delivered while its context is in the slot are its own and no others, the context holds exactly its completed nodes, once each |
| EngineRuns.AloneSavesOnce | app/reasoning_graph/engine.py:57-142 | in particular if no other `execute` begins before its last step and no other execution's node ends with a value while its context is in the slot |
| EngineRuns.UnbudgetedReachesReference | app/reasoning_graph/engine.py:57-163 | in every interleaving, an execution without a context into whose course no other one brings a context ends with every node settled, in the reference evaluation of its closed acyclic graph |
| EngineRuns.UnbudgetedAgree | app/reasoning_graph/engine.py:57-163 | two such executions of one graph, cycles allowed, in any interleavings on any engines, leave the same graph |
| EngineRuns.TotalIsPaid | app/reasoning_graph/engine.py:57-149 | in every interleaving the nodes admitted, and the tools called, in all executions together stay below what all contexts had left, plus those admitted with an empty slot, of which there are none if every `execute` brings a context |
| EngineRuns.TakenSlotOverruns | app/reasoning_graph/engine.py:57-142 | a run in which an execution exceeds its own bound and its results are saved in another context |
| SwarmBatches.BatchSize | app/swarm/execution.py:87-92 | at least one ready node is dispatched; more than one only within both limits, and exactly one only if no two are ready or fit |
| SwarmBatches.SharedCounterBound | app/swarm/execution.py:86-107 | for k interleaved executions and no cancellation the counter is the sum of batches in flight, at most max_agents + k - 1, and returns to zero |
| SwarmBatches.PeakBound | app/swarm/execution.py:86-107 | for all limits, k interleaved executions never hold more than `Peak`: k full batches if they fit under max_agents, otherwise max_agents + k less the number of batches that reach it |
| SwarmBatches.BoundIsTight | app/swarm/execution.py:86-92 | for all limits and k a run that reaches `Peak` |
| SwarmBatches.LeakSerialises | app/swarm/execution.py:99-107 | after cancellations leaked one agent fewer than the limit, every later batch has one node |
| SwarmBatches.LeakSerialisesIff | app/swarm/execution.py:86-107 | with nothing in flight and two nodes ready, the batch is a single node if and only if that many have leaked |
| Execution.ReasoningGraphEngine.StartNode | app/reasoning_graph/engine.py:69-109 | the code before the await performs exactly the start step, including the budget exception that leaves the node running |
| Execution.ReasoningGraphEngine.FinishNode | app/reasoning_graph/engine.py:128-161 | the code after the await performs exactly the finish step |
| Execution.ReasoningGraphEngine.CheckBudget | app/reasoning_graph/engine.py:78-108 | both budget checks, in order, on whatever context the slot holds |
| Execution.ReasoningGraphEngine.Interleave | app/reasoning_graph/engine.py:57-142 | at an await the next events of other coroutines change the slot exactly as specified, and are recorded exactly as the worst of them: a cancellation, a charge or a replacement |
| Execution.Gather | app/swarm/execution.py:97-99 | any interleaving of a batch, other executions going on at every await, starts each node once, loses none, ends with nothing in flight, and raises only where a budget check raised, which takes a budget of its own or a foreseen replacement |
| Execution.SwarmExecution.Execute | app/swarm/execution.py:77-109 | terminates; keeps all invariants among other executions; stops only when nothing is ready; returns exactly the nodes that ended, once each; every ended node holds the reply of its service to its dependencies; leaves every node settled, and the reference evaluation of a closed acyclic graph, if no node is stuck, and none is without a budget unless another execution is about to bring one; the shared counter stays accounted for and bounded, and its own batches are given back |
| Execution.SwarmExecution.Round | app/swarm/execution.py:86-107 | each round dispatches at least one more node, counts and uncounts exactly its batch, and collects exactly the nodes that ended |
| Execution.SwarmExecution.OtherRounds | app/swarm/execution.py:86-107 | rounds of other executions starting, ending and being cancelled keep the counter's invariant and leave this execution's batch alone |
| Execution.SequentialExecution.Execute | app/swarm/execution.py:50-63 | the same for the sequential strategy, which a budget exception leaves at once: it returns normally only with no node stuck, and then with the reference evaluation |
| Execution.SequentialExecution.ExecuteNode | app/swarm/execution.py:59-60 | one awaited node either ends, with nothing in flight, or raises and is left RUNNING |
| Execution.StrategyReachesReference | app/swarm/execution.py:50-109 | without agents and with no budget check having raised, both strategies leave every node settled, and on every closed acyclic graph compute the reference evaluation, for all limits, counter values and other executions |
| Execution.UnbudgetedNeverStuck | app/reasoning_graph/engine.py:78-80 | an execution without a budget has no check that raises unless another one brings its context to the engine |
| Execution.StrategyEndState | app/swarm/execution.py:50-109 | each node is dispatched at most once, and it is dispatched if and only if no cycle, failure or stuck node is above it |
| Execution.RunAgentGraph | app/orchestrator/chat_orchestrator.py:244-271 | unless another execution is about to take the slot, at most max_iterations - 2 nodes of the graph end and at most max_tool_calls - 1 of them called a tool; unless one is about to be charged to its context, exactly each completed node is saved, once; the graph is untouched if the check after planning raises, and otherwise the strategy's results hold |
| Watchdog.AgentWatchdog.Register | app/orchestrator/watchdog.py:213-239 | the registry gains a fresh context, and a monitor if none is alive |
| Watchdog.AgentWatchdog.AttachTask | app/orchestrator/watchdog.py:241-244 | records the asyncio task of a registered id and changes nothing else |
| Watchdog.AgentWatchdog.Unregister | app/orchestrator/watchdog.py:246-256 | removes the id and returns its context |
| Watchdog.AgentWatchdog.MonitorPass | app/orchestrator/watchdog.py:268-298 | one wake-up: every registered execution past its limit is cancelled with the runtime reason, and its unfinished task asked to stop; no other context or task changes; the monitor ends if and only if nothing is registered |
| Watchdog.AgentWatchdog.Terminate | app/orchestrator/watchdog.py:287-298 | one execution is cancelled, its task only if unfinished; all others are untouched |
| Watchdog.AgentWatchdog.BeginGuarded | app/orchestrator/watchdog.py:342-356 | a guarded call registers its fresh context and task |
| Watchdog.AgentWatchdog.EndGuarded | app/orchestrator/watchdog.py:357-401 | every exit path unregisters the id, returns a value only on success, and sets the stated reason |
| WatchdogRuns.NextKeepsInv | app/orchestrator/watchdog.py:213-298 | every step keeps: a nonempty registry has a live monitor, and the next wake-up is early enough for every execution not yet cancelled |
| WatchdogRuns.DeadlineKept | app/orchestrator/watchdog.py:260-298 | in every run, an execution still registered after its limit, one poll interval and the monitor's lag is cancelled, and so is its task unless that has ended; nothing is cancelled before its limit |
| WatchdogRuns.DeadlineTight | app/orchestrator/watchdog.py:272-282 | no smaller bound holds |
| WatchdogRuns.WatchedStepIff | app/orchestrator/watchdog.py:230-248 | a step loses sight of a running call if and only if a call ends while another runs under the same id |
| WatchdogRuns.FreshIdsAreWatched | app/orchestrator/watchdog.py:342-401 | when ids are not reused while in use, exactly the running calls are registered, in every run |
| FailureTracking.PushKeepsRecent | app/reliability/failure_tracker.py:71-72 | a bounded deque holds the most recent part of the true history |
| FailureTracking.CountAtLeast | app/reliability/failure_tracker.py:106-110 | in ordered times, n lie in the window if and only if the n-th from the end does |
| FailureTracking.WindowExact | app/reliability/failure_tracker.py:106-110 | the deque's window count is the true count capped at max_records |
| FailureTracking.FailureTracker.GetStats | app/reliability/failure_tracker.py:103-123 | totals, window counts, failure rate, and time and type of the last failure in terms of the true history |
| CircuitBreaking.CircuitBreaker.BeginCall | app/reliability/circuit_breaker.py:128-137 | admission and state exactly as the admission function says |
| CircuitBreaking.CircuitBreaker.OnFailure | app/reliability/circuit_breaker.py:164-172 | records the failure and opens exactly at the threshold |
| CircuitBreaking.CircuitBreaker.OnSuccess | app/reliability/circuit_breaker.py:158-162 | closes a half-open breaker, records the success, and leaves the failures and everything else alone |
| CircuitBreaking.CircuitBreaker.State | app/reliability/circuit_breaker.py:104-110 | reading the state performs the timed transition |
| CircuitBreaking.CircuitBreaker.ForceCloseNow | app/reliability/circuit_breaker.py:208-212 | closes and forgets all failures |
| BreakerRuns.OpenRejects | app/reliability/circuit_breaker.py:104-131 | no call reaches the target in OPEN before the recovery timeout, over all interleavings of a run that does not begin OPEN |
| BreakerRuns.EpisodeQuota | app/reliability/circuit_breaker.py:133-137 | a half-open episode admits at most the quota, and the counter is the number admitted |
| BreakerRuns.HalfOpenExit | app/reliability/circuit_breaker.py:158-172 | half-open is left if and only if a call succeeds, a failure brings the window count to the threshold, or a manual control is used |
| BreakerRuns.HistoryExact | app/reliability/circuit_breaker.py:158-172 | in every run the tracker holds exactly the failures reported since the breaker was last closed by hand, in order; successes, rejections and cancellations do not touch them |
| BreakerRuns.OpensExactly | app/reliability/circuit_breaker.py:164-172 | in every run, successes in between or not, a failed call opens a breaker that is not OPEN if and only if the last threshold failures of that history, with it, fall within the window |
| BreakerRuns.OtherEvents | app/reliability/circuit_breaker.py:104-162 | nothing else opens it but the manual control; a success closes a half-open breaker only |
| BreakerRuns.AnyFailureReopensIff | app/reliability/circuit_breaker.py:13 | the header's promise holds if and only if the threshold is at most one |
| BreakerRuns.StuckForever | app/reliability/circuit_breaker.py:133-137 | a spent quota with nothing in flight admits nothing ever again without manual control |
| BreakerRuns.StuckReachable | app/reliability/circuit_breaker.py:133-172 | failing calls alone, none cancelled, reach that state from a fresh breaker with a threshold of at least two |
| BreakerRuns.StuckReachableIff | app/reliability/circuit_breaker.py:133-172 | without cancelled calls and manual control it is reachable if and only if the threshold is at least two and at most the tracker's capacity |
| BreakerRuns.CancelledStuckIff | app/reliability/circuit_breaker.py:137-146 | with cancelled calls it is reachable if and only if the threshold is at most the tracker's capacity |
| BreakerRuns.OpensIffBurst | app/reliability/circuit_breaker.py:164-172 | the failures recorded on a fresh breaker leave it OPEN if and only if threshold many fall into one window |
| BreakerRuns.FailingCalls | app/reliability/circuit_breaker.py:128-172 | sequential failing calls are a run that admits each of them and ends OPEN if and only if the last one completes such a burst |
| BreakerRuns.SpacedFailures | app/reliability/circuit_breaker.py:164-172 | failures exactly D apart open it if and only if (threshold - 1) * D fits into the window |
| BreakerRuns.SparseFailuresNeverOpen | app/reliability/circuit_breaker.py:164-172 | failures at least that far apart never open it |
| BreakerRuns.HealthHolds | app/reliability/circuit_breaker.py:158-212 | with sequential calls, a private tracker and recovery longer than the window, every reachable state that is not OPEN has fewer window failures than the threshold, manual controls included |
| BreakerRuns.HealthIff | app/reliability/circuit_breaker.py:158-212 | for all settings: every state of every such run that is not OPEN is below the threshold if and only if the tracker cannot count that far, or recovery is longer than the window and a threshold of one is not combined with manual opening in mid-call |
| BreakerRuns.DefaultUnhealthy | app/orchestrator/chat_orchestrator.py:121-126 | the orchestrator's own breaker reaches HALF_OPEN with five failures still in its window |
| BreakerRuns.ThresholdOneCanBeUnhealthy | app/reliability/circuit_breaker.py:203-206 | a run that shows why a manual opening in mid-call needs a threshold of two there |
| LlmCalls.DelayBounds | app/reliability/retry_policy.py:117 | every jittered delay lies between base and maximum |
| LlmCalls.NextDelayExact | app/reliability/retry_policy.py:117 | the draw moves the delay from the base to three times the last one, cut off at the maximum |
| LlmCalls.ElapsedAtLeast | app/reliability/retry_policy.py:102-126 | n timed-out attempts take at least n timeouts and n - 1 base delays |
| LlmCalls.ElapsedAtMost | app/reliability/retry_policy.py:102-126 | n attempts of at most a given length take at most n times that and n - 1 maximum delays |
| LlmCalls.DelaysGrow | app/reliability/retry_policy.py:117 | with the largest draw every time the delays grow threefold up to the maximum |
| LlmCalls.RetryPolicy.Execute | app/reliability/retry_policy.py:84-139 | the attempts made, the outcome, the time taken, and the exact times the tracker gains |
| LlmCalls.SafeLlmAsk | app/orchestrator/chat_orchestrator.py:160-179 | one wrapped call: the reply and the breaker's exact new state |
| LlmCalls.AskDuringOutage | app/orchestrator/chat_orchestrator.py:160-179 | a sequential caller during an outage never opens a breaker whose window a few calls outlast |
| LlmCalls.DefaultOutage | app/orchestrator/chat_orchestrator.py:121-137 | the default settings are such a breaker |
| TokenBuckets.RateLimitKey.Evaluate | app/api/middleware/token_bucket.py:35-66 | the script's writes and answer on the caller's clock, with the key's expiry on the server's |
| TokenBuckets.TokensBounded | app/api/middleware/token_bucket.py:51-62 | tokens stay between zero and the capacity in every run |
| TokenBuckets.LevelIsMinimum | app/api/middleware/token_bucket.py:51-62 | the level is the smallest allowance of all windows ending at the request |
| TokenBuckets.AdmittedIffConforming | app/api/middleware/token_bucket.py:56-65 | a request is admitted if and only if every window ending with it still allows a whole token |
| TokenBuckets.RateBound | app/api/middleware/token_bucket.py:35-66 | in every window admissions are at most capacity plus rate times the forward clock steps |
| TokenBuckets.ForwardOfMonotone | app/api/middleware/token_bucket.py:51 | for a clock that never goes back those steps sum to the elapsed time |
| TokenBuckets.ExpiryStepIff | app/api/middleware/token_bucket.py:41-64 | expiry changes a request's answer and what it leaves stored if and only if the key has expired before the caller's clock refilled it |
| TokenBuckets.ExpiryInvisible | app/api/middleware/token_bucket.py:41-64 | if the bucket refills within its ttl less the skew of the clocks, expiry changes no stored bucket and no answer |
| TokenBuckets.ExpiryInvisibleIff | app/api/middleware/token_bucket.py:69-80 | with clocks skewed by at most a given amount, expiry is unobservable in every run if and only if the ttl less the skew refills an empty bucket |
| TokenBuckets.DefaultTiers | app/api/middleware/token_bucket.py:79-80 | for both default tiers that is a skew of at most 60 seconds |
| SortedSets.AddExact | app/cache/semantic_cache.py:167 | adding a member moves it and keeps the others, in score order |
| SemanticCaches.HitExact | app/cache/semantic_cache.py:109-133 | a lookup hits if and only if the most similar live entry, least recently touched on ties, reaches the threshold and has its response |
| SemanticCaches.LookupExact | app/cache/semantic_cache.py:131-148 | the answer is that entry's response; only a hit moves anything |
| SemanticCaches.SemanticCache.Get | app/cache/semantic_cache.py:91-148 | the loop computes the specified lookup |
| SemanticCaches.SemanticCache.Set | app/cache/semantic_cache.py:150-175 | stores the response and embedding under its key, leaves those of every other key alone, and evicts as specified |
| SemanticCaches.SemanticCache.EvictIfNeeded | app/cache/semantic_cache.py:198-215 | removes the least recent surplus |
| SemanticCaches.SemanticCache.Clear | app/cache/semantic_cache.py:182-190 | removes every indexed key and returns how many |
| SemanticCaches.StepRefines | app/cache/semantic_cache.py:91-225 | each operation acts on the index as the matching operation acts on a plain LRU list |
| SemanticCaches.CacheIsLru | app/cache/semantic_cache.py:91-225 | over every sequential run the index is exactly that list, of at most max_entries keys, and the key just set survives |
| SemanticCaches.StoredExact | app/cache/semantic_cache.py:91-225 | over every sequential run each stored response and embedding is that of the last set of its key |
| SemanticCaches.HitReturnsLastSet | app/cache/semantic_cache.py:109-140 | a hit returns exactly the response of the last set of a key whose query is at least as similar as the threshold |
| CacheRuns.NextKeepsInv | app/cache/semantic_cache.py:163-225 | every step except a resurrecting touch keeps the size guarantee and that stored embeddings are indexed |
| CacheRuns.BoundHolds | app/cache/semantic_cache.py:163-225 | under every interleaving without such a touch the index holds at most max_entries keys whenever no set is in flight |
| CacheRuns.TouchExact | app/cache/semantic_cache.py:136 | whatever else is under way, a touch keeps the guarantee if and only if its key is still indexed or the latest set leaves room for it |
| CacheRuns.TouchCanExceed | app/cache/semantic_cache.py:131-136 | a run in which the race puts the index above the limit |
| CacheRuns.SafeThroughoutIff | app/cache/semantic_cache.py:163-225 | in every run a key stays indexed, with no operation about to remove it, if and only if no step invalidates it, lists the members for clearing, or lists it as a victim |
| CacheRuns.ListedIff | app/cache/semantic_cache.py:204-212 | the i-th oldest key becomes a victim if and only if more than i keys were counted as surplus; with an up-to-date count exactly the max_entries most recent keys are spared |
| CacheRuns.LatestCanBeLost | app/cache/semantic_cache.py:198-215 | a run of two overlapping sets that empties the cache, the key set last included |
| CacheRuns.KeysAfter | app/cache/semantic_cache.py:163-225 | exactly which keys and which embeddings are there after a step |
| CacheRuns.ListedIsRemoved | app/cache/semantic_cache.py:204-225 | in every run whatever an eviction or a clearing has listed has been out of the cache by the time the operation ends |
| CacheRuns.ListsAfter | app/cache/semantic_cache.py:204-225 | each removal shortens its operation's list by one, an operation ends when its list is empty, and lists of others are left alone |
| CacheRuns.SoloSet | app/cache/semantic_cache.py:163-215 | a set that is not interrupted can always run to its end, and leaves exactly the max_entries most recent keys with its own among the candidates |
| CacheRuns.SoloClear | app/cache/semantic_cache.py:182-190 | a clear that is not interrupted can always run to its end, and leaves nothing |
| Chunking.SpansExact | app/rag/retriever.py:142-161 | chunks run from the first sentence to the last, each greedily maximal, adjacent ones sharing exactly min(overlap, length - 1) sentences, at most one per sentence |
| Chunking.Rebuilds | app/rag/retriever.py:142-161 | the sentences each chunk adds, put together, are the input |
| Chunking.EndsMonotone | app/rag/retriever.py:147-154 | a later start never ends earlier |
| Chunking.AddsNothingIff | app/rag/retriever.py:158-160 | a chunk adds no sentence if and only if the overlap leaves no room for the next one |
| Chunking.NothingSkippedIff | app/rag/retriever.py:160 | every sentence is in a chunk if and only if the overlap is not negative or the first chunk takes them all |
| Chunking.ChunkText | app/rag/retriever.py:137-161 | the nested loops produce the texts of exactly those spans |
| Chunking.Fill | app/rag/retriever.py:144-154 | the inner loop takes one sentence and then as many as fit |
| Chunking.JoinExact | app/rag/retriever.py:155 | every sentence of a chunk stands in its text, in order, with one space between two and nothing else |
| Chunking.StripExact | app/rag/retriever.py:155 | stripping takes white space from both ends, and nothing else |
| VectorMaintenance.SelectionUnique | app/vector_memory/maintenance.py:222-232 | the greedy pass is the only selection that is pairwise below the threshold and blames every dropped vector on an earlier kept one |
| VectorMaintenance.KeptSeparated | app/vector_memory/maintenance.py:222-237 | what is kept is pairwise below the threshold |
| VectorMaintenance.MaintainExact | app/vector_memory/maintenance.py:63-116 | what one run leaves of any store, in order: what is not stale, thinned out greedily if the index is as long as that; flags set exactly by age; the index rebuilt if and only if something went |
| VectorMaintenance.MaintainAligned | app/vector_memory/maintenance.py:63-116 | for an index that matches the memories: with something stale exactly the others stay, and with nothing stale a greedy selection |
| VectorMaintenance.FreshConcat | app/vector_memory/maintenance.py:186-197 | stale removal looks at each memory by itself and keeps the order |
| VectorMaintenance.MaintainFixedIff | app/vector_memory/maintenance.py:63-116 | a run changes nothing if and only if nothing is stale, similar or uncompressed |
| VectorMaintenance.ThirdRunIdle | app/vector_memory/maintenance.py:63-116 | at a fixed clock the third run never changes an aligned store |
| VectorMaintenance.SecondRunIdleIff | app/vector_memory/maintenance.py:207-211 | the second run changes nothing if and only if nothing was stale or the fresh memories were already separated |
| VectorMaintenance.VectorMaintenanceManager.RunFullMaintenance | app/vector_memory/maintenance.py:63-116 | the pipeline performs the specified run, and every count of its summary is exact |
| VectorMaintenance.VectorMaintenanceManager.FindDuplicates | app/vector_memory/maintenance.py:222-232 | the nested loops find exactly the duplicates |
| VectorMaintenance.VectorMaintenanceManager.Deduplicate | app/vector_memory/maintenance.py:207-239 | keeps exactly the others in order, and declines on a length mismatch |
| VectorMaintenance.VectorMaintenanceManager.RemoveStale | app/vector_memory/maintenance.py:180-205 | keeps the fresh and the undated, in order and as often as they were there, and nothing else |
| VectorMaintenance.VectorMaintenanceManager.CompressOld | app/vector_memory/maintenance.py:268-293 | flags exactly the old ones, counts those that were not flagged before, and writes only if there are any |
| VectorStores.FAISSVectorStore.AddEmbedding | app/vector_memory/faiss_store.py:84-102 | appends one vector and record at the same position |
| VectorStores.FAISSVectorStore.BatchInsert | app/vector_memory/faiss_store.py:173-191 | appends all items in step although vectors go first |
| VectorStores.FAISSVectorStore.Delete | app/vector_memory/faiss_store.py:142-171 | leaves exactly the items with other ids, vectors still in step |
| VectorStores.InsertThenDelete | app/vector_memory/faiss_store.py:142-191 | deleting what was inserted under unused ids restores the store |
| Authority.SortExact | app/memory/authority.py:275-279 | the sort is a permutation in descending lexicographic order that keeps ties in order |
| Authority.WinnerExact | app/memory/authority.py:262-281 | the winner is the first lexicographic maximum |
| Authority.WinnerMeans | app/memory/authority.py:275-281 | on the facts' own fields: conversation before knowledge graph before vectors; within the winner's source nothing is later, among those equally late nothing more confident, and the first of equals wins |
| Authority.ReasonExact | app/memory/authority.py:283-293 | what each reason means about all the other facts, both ways |
| Authority.GroupByKey | app/memory/authority.py:253-259 | groups in first-occurrence order, each with all its facts in order |
| Authority.DetectConflicts | app/memory/authority.py:197-214 | exactly one conflict per key with two facts that differ once lower-cased, in the order in which the keys first occur |
| Authority.ResolveAll | app/memory/authority.py:216-237 | the keys of the qualified facts, each with its winner |
| Authority.ResolvedIsWinnerIff | app/memory/authority.py:216-237 | the resolved fact is the conflict's winner if and only if that winner qualifies |
| Authority.OrderMattersOnlyForTies | app/memory/authority.py:275-281 | reordering the facts changes the winner only among equals |
| Authority.EarliestStatementWins | app/memory/authority.py:101-135 | within one conversation the first statement of a key wins, whatever other layers hold |
| Authority.Reconcile | app/memory/authority.py:239-248 | both results, and where they part |
| Base64Url.EncodeExact | app/api/middleware/jwt_auth.py:54-55 | every character is a URL-safe digit, and the length is never 1 modulo 4 |
| Base64Url.RepadRestores | app/api/middleware/jwt_auth.py:58-61 | the padding arithmetic restores exactly what was stripped |
| Base64Url.RoundTrip | app/api/middleware/jwt_auth.py:54-62 | decoding an encoding gives the bytes back, for all bytes |
| Base64Url.DecodeExact | app/api/middleware/jwt_auth.py:58-62 | exactly what any text decodes to: ASCII only, other characters skipped, read up to the first sufficient padding, the digits making bytes as in RFC 4648 |
| Jwt.EncodeDotFree | app/api/middleware/jwt_auth.py:79-91 | a segment never contains the separator, so splitting a token gives back its three segments |
| Jwt.DecodeCreated | app/api/middleware/jwt_auth.py:65-108 | decoding a created token under any secret comes down to comparing two HMACs and the expiry check |
| Jwt.CreatedTokenDecodes | app/api/middleware/jwt_auth.py:65-108 | a token decodes to its payload with iat and exp, up to and including its expiry second |
| Jwt.TimesExact | app/api/middleware/jwt_auth.py:74-78 | the claims are those of the payload, but iat and exp the whole seconds of creation and expiry |
| Jwt.DecodeSucceedsIff | app/api/middleware/jwt_auth.py:86-108 | exactly which strings decode to which claims: three segments, the HMAC of the first two, and an expiry that is not past |
| PluginFrames.FrameRoundTrip | app/plugins/plugin_protocol.py:26-52 | a frame reads back and leaves the rest unread if and only if its payload has 1 byte to 10 MB |
| PluginFrames.PrefixReadsNone | app/plugins/plugin_protocol.py:39-51 | every strict prefix of a frame reads as nothing |
| PluginFrames.StreamRoundTrip | app/plugins/plugin_protocol.py:26-52 | a stream of frames reads as the payloads and then nothing |
| PluginFrames.WriteMessage | app/plugins/plugin_protocol.py:26-32 | appends exactly one frame to the stream |
| PluginFrames.ReadMessage | app/plugins/plugin_protocol.py:35-52 | consumes and returns exactly what the frame reader says |
| PluginFrames.ParseIntExact | app/plugins/plugin_protocol.py:43-46 | exactly which headers are which numbers: a numeral with an optional sign, between white space |
| PluginFrames.ReadersAgree | app/plugins/registry.py:224-232 | on a whole frame of legal size the one-shot reader agrees with the stream reader |
| PluginFrames.ReadersAgreeIff | app/plugins/registry.py:224-232 | on every byte string the two readers agree if and only if the header announces nothing, or a legal length that many bytes follow |
| PluginFrames.ReadersDisagree | app/plugins/registry.py:224-232 | on a frame cut inside its payload it passes on the part it has |

## Left out

- LLM, tools, retrieval, Redis, FAISS, embeddings, HMAC, JSON and UTF-8: parameters, maps or
  sequences. JSON is taken to read back the claims it wrote; nothing is assumed of HMAC.
- Floating point: times, delays, tokens, scores and confidences are reals; NaN does not exist.
- Threads: one event loop is assumed, and a breaker fallback that does not suspend.
- Execution.StrategyReachesReference: nodes routed to an agent are excluded, because an agent
  also reads the shared state and its answer may depend on the schedule. The end-state and
  budget theorems include them.
- Execution.SwarmExecution.Execute: cancellation of the coroutine itself ends a run early;
  every state it can stop in is a state of `GraphRuns`, and the counter it leaks is
  modelled in `SwarmBatches`.
- The version and agent pairs the engine filters, which depend on the prompt store; the
  strategies return node ids instead.
- ReasoningGraphs.BuildPlan: extracting and parsing the reply of the LLM; the loop starts from
  parsed nodes, and a node that fails validation is not distinguished from other failures.
- Execution.RunAgentGraph: the nodes of the plan are taken to start as PENDING without a result,
  as the prompt asks for neither field; the synthesis of the answer is not modelled.
- Watchdog.AgentWatchdog.MonitorPass: `shutdown`, and registration outside a running event
  loop, are not modelled.
- WatchdogRuns.DeadlineKept: the monitor is assumed to run at most `lag` after it is due; a
  coroutine that blocks the event loop for longer delays it.
- CircuitBreaking.CircuitBreaker.OnFailure: metrics, logs and the error text in a record.
- LlmCalls.SafeLlmAsk: the failure counters of the metrics, and `TimeoutController` beyond
  ending an attempt after the timeout.
- TokenBuckets.RateLimitKey.Evaluate: the limiter around the script (identity, tier choice,
  behaviour without Redis).
- SemanticCaches.SemanticCache.Set: the timestamp keys are write-only and not modelled, nor
  are the disabled cache and entry expiry; `CacheRuns` has an expiry step.
- CacheRuns.BoundHolds: a `set` that another caller's crash interrupts between its steps.
- Chunking.ChunkText: sentence splitting by regular expression; its result is a list of
  trimmed, nonempty sentences.
- VectorMaintenance.VectorMaintenanceManager.RunFullMaintenance: files that cannot be read or
  written, the separate maintenance entry points, and parsing of timestamps.
- VectorStores.FAISSVectorStore.AddEmbedding: vector dimensions, search, and saving to disk.
- Authority.GroupByKey: extraction of facts by regular expression, apart from the timestamps
  of one conversation.
- Jwt.DecodeCreated: the request middleware, and the `alg` header, which the code never reads.
- PluginFrames.ReadMessage: the JSON step, and CPython's limit of 4300 digits for `int()`.
- Crawler, web search, content safety, plugin discovery and sandbox, graph store, token
  budgeter, load guard and the provider-level breaker: input/output, heuristics, or easier
  members of the same kind.
