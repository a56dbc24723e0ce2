# A verified model of the RPC budget, market-data and ingestion cores

This project models the parts of the repository whose correctness is hard to see from the code, and
proves what they promise for every input, every run and every reachable state.

- **RPC budget** (`TokenBucket`, `TokenBucketRateLimiter`, `RpcBudget*`). The scheduler that hands out
  leases to main and gap-repair work over many endpoints is given twice: as a function on values
  (`RpcBudgetModel`, one public call or timer firing per step) and as a class whose fields the methods
  update (`RpcBudgetScheduler`), each method proved equal to its step. Over all runs and all clocks:
  safety of ids, counters and promises; a rate bound for every window; the share a limited gap allocation
  leaves to main work; work conservation, priority and arrival order; where every waiter and lease ends up;
  and a measure that ends all waiting, also after the clock stepped back.
- **Circuit breaker** (`CircuitBreaker`, `CircuitBreakerObject`). Each call is a Begin and an End step, so
  calls overlap freely. Counter bounds hold in every interleaving; the opening and closing rules are exact
  for calls that do not overlap; for overlapping calls the project shows where those rules fail and
  exactly when.
- **Weighted round-robin** (`SmoothRoundRobin`, `WeightedEndpoints`, `WeightedEndpointSelector`). Exact
  proportional fairness without failures, bounded credit and no starvation with them.
- **Fills** (`Fills`, `FillLegs`, `FillOrder`, `FillPayments`, `FillExecution`). Which side sold, what was paid and how
  whole wei are attributed: exact matching of NFT legs, exactly when item order matters, conservation of the
  payment.
- **Bootstrap output** (`OperationStream`, `OperationStreamReader`). Line framing that does not depend on
  how the bytes were split, and the exact condition for a result.
- **Migrations** (`Migrations`, `MigrationRunner`). Any number of concurrent runners apply each missing file
  exactly once and in order.
- **Deployment search** (`ContractDeployment`), **current asks** (`CurrentAsks` over `Decimal`), **token
  scopes** (`TokenScope`), **fee policy** (`FeePolicy`) and **Terraforms placements** (`Terraforms`).

`Common`, `Sequences` and `Decimal` hold shared vocabulary. `dafny verify dfyconfig.toml` checks everything.

Conventions. A thrown error is `Thrown` (or a named outcome where callers distinguish errors). Clock
readings, the outcomes of network attempts and transactions, the code predicate of a chain and the decoder
of a line are parameters. Tokens are reals; endpoint weights are integers scaled by 6400, which makes every
effective weight exact. A promise handed to a caller is a ticket number, and `settled` records how each
ticket was settled.

Where the code and its own description differ, the code is modelled:

- `waitTimeMs` is described as the earliest next consumption. After the clock has stepped back behind the
  bucket's last refill it is too short (`TokenBucket.WaitInsufficientAfterStepBack`);
  `TokenBucket.FullTokenExactly` gives the exact moment for every clock. The scheduler's timer inherits this:
  `RpcBudgetQuiescence.StepBackStalls` shows a firing without progress, `RpcBudgetQuiescence.FireProgress` by how
  much it can be early, and `RpcBudgetQuiescence.Quiescence` that this costs at most one firing per millisecond
  of lag.
- The gap allowance is required to be smaller than the endpoint's so as to keep capacity for main work. Main
  work gets at least the difference of the rates less what the burst cuts off (`RpcBudgetReserve.MainReserved`).
  That it is served at all in a long enough window holds exactly for a burst of two or more
  (`RpcBudgetContention.ReservationExactly`); with a burst of one a late drain can hand the only token to gap
  work, and real runs reach that point (`RpcBudgetContention.ContentionReached`).
- Limited gap work is said to retain its allowance under main load. It is granted its allowance less exactly what
  its burst of one cuts off while it waits for the endpoint's token (`RpcBudgetAllowance.GapRetained`), which can
  be most of it (`RpcBudgetAllowance.AllowanceCut`).
- The breaker comments describe one call at a time. With overlapping calls a late probe can close an open
  circuit before its cool-down (`CircuitBreaker.LateProbeClosesEarly`, exactly when:
  `CircuitBreaker.OpenClosesExactly`) and can let more probes run than the limit
  (`CircuitBreaker.LateProbeFreesSlot`, exactly when: `CircuitBreaker.ExceedsExactly` for a step and
  `CircuitBreaker.ProbesWithinLimit` for a run; by how many at most: `CircuitBreaker.ProbesBounded`).
- Item order can matter to the sold side and to the payment when an offered NFT leg is unreadable
  (`FillOrder.UnreadableExample`), and so can swapping the sides. `FillOrder.OrderMattersExactly`,
  `FillPayments.SummaryOrderExactly` and `FillOrder.ResolveSwaps` say exactly when.
- `multiplyByBpsCeil` and `formatDecimal` are exact for the amounts that occur, and each fails on negative
  values with a remainder (`FeePolicy.MultiplyByBpsCeilExact`, `FeePolicy.FormatDecimalExact`).
- A negative rotation leaves the map (`Terraforms.NegativePlacement`, exactly when:
  `Terraforms.LocateOnMapExactly`).

## Model

| member | source | states |
|---|---|---|
| TokenBucket.RefillValid | shared/evm/rpc-resilience.ts:151-184 | refilling and taking keep the token count between zero and the burst |
| TokenBucket.RefillComposes | shared/evm/rpc-resilience.ts:174-184 | with an advancing clock, intermediate refills neither gain nor lose tokens |
| TokenBucket.WaitSufficient | shared/evm/rpc-resilience.ts:159-172 | waiting the reported time, from the later of clock and last refill, makes the bucket ready |
| TokenBucket.WaitMinimal | shared/evm/rpc-resilience.ts:159-172 | no shorter whole-millisecond wait reaches a full token |
| TokenBucket.FullTokenExactly | shared/evm/rpc-resilience.ts:159-184 | for every clock, a refused bucket holds a full token again exactly from that moment on |
| TokenBucket.WaitInsufficientAfterStepBack | shared/evm/rpc-resilience.ts:159-184 | a concrete bucket whose reported wait is not enough once the clock stepped back |
| TokenBucket.TakeLevel | shared/evm/rpc-resilience.ts:151-157 | every admission lowers the bucket's level by at least one token less 1e-9 |
| TokenBucket.LevelDrop | shared/evm/rpc-resilience.ts:174-184 | between two states the level drops by at most the burst plus rate times refill time |
| TokenBucketRateLimiter.Create | shared/evm/rpc-resilience.ts:27-37 | construction throws exactly on an invalid limit and otherwise starts with a full bucket |
| TokenBucketRateLimiter.RateLimiter.constructor | shared/evm/rpc-resilience.ts:110-119 | a new limiter holds a full, valid bucket |
| TokenBucketRateLimiter.RateLimiter.RefillTokens | shared/evm/rpc-resilience.ts:174-184 | the fields become the refilled bucket, unchanged when time did not advance |
| TokenBucketRateLimiter.RateLimiter.TryAcquire | shared/evm/rpc-resilience.ts:151-157 | true exactly when the bucket is ready; the bucket then pays one token |
| TokenBucketRateLimiter.RateLimiter.WaitTimeMs | shared/evm/rpc-resilience.ts:160-172 | reports the model's wait and only refills |
| TokenBucketRateLimiter.RateLimiter.AcquireInternal | shared/evm/rpc-resilience.ts:135-147 | the blocking loop ends for every clock, takes exactly one token, and sleeps once, for the reported wait, when the clock was not behind |
| RpcBudgetSafety.InitialSafe | shared/evm/rpc-budget.ts:111-139 | every accepted configuration starts in a state that satisfies the invariant |
| RpcBudgetSafety.ApplyKeeps | shared/evm/rpc-budget.ts:141-181 | every public call and timer firing keeps the invariant |
| RpcBudgetSafety.PickOldest | shared/evm/rpc-budget.ts:247-268 | the chosen waiter is grantable and the oldest of its endpoint and class; gap work only below the cap |
| RpcBudgetSafety.DrainKeeps | shared/evm/rpc-budget.ts:231-308 | a drain at any clock keeps the invariant |
| RpcBudgetSafety.SafeForever | shared/evm/rpc-budget.ts:141-316 | after every run: waiting and leased ids disjoint, gap counter equals gap leases and respects the allocation, at most 1024 waiters, each accepted acquire settled at most once, grants in arrival order, nothing left after stop |
| RpcBudgetSafety.StoppedForever | shared/evm/rpc-budget.ts:222-233 | after stop no later call or stray firing changes anything |
| RpcBudgetSafety.StopSettlesAll | shared/evm/rpc-budget.ts:222-229 | stop settles every outstanding promise and leaves the scheduler idle |
| RpcBudgetOrder.PickStops | shared/evm/rpc-budget.ts:247-268 | the grant loop stops exactly when no waiter is grantable |
| RpcBudgetOrder.GrantUnready | shared/evm/rpc-budget.ts:269-280 | a grant never makes another waiter grantable |
| RpcBudgetOrder.DrainConserves | shared/evm/rpc-budget.ts:231-281 | work conservation: after a drain no waiter is grantable or expired and no lease has lapsed |
| RpcBudgetOrder.DrainPrefers | shared/evm/rpc-budget.ts:245-281 | within a drain the preferred class is granted first, and unlimited gap work never passes a main request waiting for the same endpoint |
| RpcBudgetRate.GrantPaid | shared/evm/rpc-budget.ts:269-273 | the discarded tryAcquire results are always successes: every grant is paid by its own buckets |
| RpcBudgetRate.RunPaid | shared/evm/rpc-budget.ts:141-308 | over every run all grants are paid for |
| RpcBudgetRate.EndpointRateBound | shared/evm/rpc-budget.ts:247-281 | over every window n(1-1e-9) grants fit in burst plus rate times the growth of the refill time, also when the clock steps back |
| RpcBudgetRate.GapRateBound | shared/evm/rpc-budget.ts:252-273 | limited gap grants on an endpoint likewise fit in one plus the gap rate times that growth |
| RpcBudgetReserve.LostExactly | shared/evm/rpc-resilience.ts:174-184 | what the burst cuts off between two readings is exactly what would have gone over it |
| RpcBudgetReserve.DrainLedger | shared/evm/rpc-budget.ts:247-281 | in a drain the total bucket pays at most one token per grant and the gap bucket at least one less 1e-9 per gap grant |
| RpcBudgetReserve.MainReserved | shared/evm/rpc-budget.ts:35-61 | while main work waits for an endpoint it is granted at least the difference of endpoint and gap rate, less two requests and what the burst cut off |
| RpcBudgetReserve.NothingLost | shared/evm/rpc-resilience.ts:174-184 | with room for what arrives between two drains the burst cuts off nothing while main work waits |
| RpcBudgetContention.MainServed | shared/evm/rpc-budget.ts:35-61 | with a burst of two or more main work is granted in every window in which it waits and that difference is worth more than two requests, however late the drains come |
| RpcBudgetContention.LossServes | shared/evm/rpc-budget.ts:247-281 | a drain before which a burst of two or more cut tokens off grants main work |
| RpcBudgetContention.ContendedWindow | shared/evm/rpc-budget.ts:252-267 | with a burst of one, at any rates, a drain hands the recovered token to the gap request while the main request goes on waiting |
| RpcBudgetContention.BurstOneFails | shared/evm/rpc-budget.ts:35-61 | a burst of one fails at every pair of rates with a difference beyond the slack |
| RpcBudgetContention.ReservationExactly | shared/evm/rpc-budget.ts:35-61 | for every accepted pair of rates, waiting main work is always served in windows worth more than two requests exactly when the burst is at least two or the rates leave no difference |
| RpcBudgetContention.ContentionReached | shared/evm/rpc-budget.ts:141-161 | three acquires on a new scheduler with a burst of one lead to that contention |
| RpcBudgetAllowance.GapRetained | shared/evm/rpc-budget.ts:97-99 | limited gap work is granted its allowance less exactly what its burst of one cut off, up to one request and the slack |
| RpcBudgetAllowance.GapBlocked | shared/evm/rpc-budget.ts:252-260 | a gap request below the cap with its allowance in hand waits only for the endpoint's token |
| RpcBudgetAllowance.CutPerToken | shared/evm/rpc-resilience.ts:159-184 | one such wait cuts off at most the allowance earned in the time of one token and a millisecond |
| RpcBudgetAllowance.AllowanceCut | shared/evm/rpc-budget.ts:97-99 | at rates 1.1 and 1 one wait of 910 milliseconds cuts off 0.91 of an allowance |
| RpcBudgetQuiescence.DrainArms | shared/evm/rpc-budget.ts:282-307 | a drain at any clock leaves the timer at the least of all deadlines and waits, unarmed when nobody waits, and moves no bucket past the later of the clock and where the buckets were |
| RpcBudgetQuiescence.DrainMeasure | shared/evm/rpc-budget.ts:231-281 | a drain never raises 2·waiters + leases and lowers it exactly when a lease has lapsed, a waiter has expired or a waiter is grantable |
| RpcBudgetQuiescence.FireProgress | shared/evm/rpc-budget.ts:282-307 | every firing at or after its deadline grants, expires or reclaims something; after a clock step back this holds once the lag is made up |
| RpcBudgetQuiescence.Quiescence | shared/evm/rpc-budget.ts:231-308 | without arrivals there are at most 2·waiters + leases firings plus one per millisecond the clock was behind the buckets, and the timer is armed exactly while somebody waits |
| RpcBudgetQuiescence.LagExists | shared/evm/rpc-resilience.ts:174-184 | in every state some finite lag bounds how far the buckets are ahead of a clock |
| RpcBudgetQuiescence.CatchUp | shared/evm/rpc-budget.ts:231-308 | one firing that makes up the lag restores the situation in which every later firing makes progress |
| RpcBudgetQuiescence.StepBackStalls | shared/evm/rpc-budget.ts:282-307 | a concrete state in which a firing at its deadline achieves nothing because the clock stepped back |
| RpcBudgetAccounting.DrainAccounts | shared/evm/rpc-budget.ts:240-281 | an expired waiter is deferred; any other keeps waiting or gets a lease of the configured length |
| RpcBudgetAccounting.DrainLeases | shared/evm/rpc-budget.ts:234-239 | a drain takes back exactly the lapsed leases |
| RpcBudgetAccounting.AcquireOutcome | shared/evm/rpc-budget.ts:152-160 | an accepted acquire is leased at once or queued for thirty seconds |
| RpcBudgetAccounting.CancelRemoves | shared/evm/rpc-budget.ts:163-171 | cancelling leaves no trace of the id and defers its waiter |
| RpcBudgetAccounting.ReleaseFrees | shared/evm/rpc-budget.ts:173-181 | releasing frees the id, restores the gap count and leaves nobody waiting who could use the slot |
| RpcBudgetService.DrainLeavesNothing | shared/evm/rpc-budget.ts:231-281 | after a drain every waiter lacks a token in a bucket it needs, or gap work is at its cap |
| RpcBudgetService.Promptness | shared/evm/rpc-budget.ts:282-307 | until the timer is due no lease lapses, no waiter expires, no main request has a full token on its endpoint and no gap request below the cap has one in both buckets; the timer is armed exactly while somebody waits |
| RpcBudgetService.AcquireAccepted | shared/evm/rpc-budget.ts:141-151 | an acquire is accepted exactly when none of the six reasons to refuse applies, and a refused one changes nothing |
| RpcBudgetService.OthersAccounted | shared/evm/rpc-budget.ts:141-281 | a step defers, keeps or leases every waiter it does not cancel, by its deadline |
| RpcBudgetService.OtherLeasesKept | shared/evm/rpc-budget.ts:163-239 | a step keeps or reclaims every lease it does not name, by its deadline |
| RpcBudgetService.StopRejects | shared/evm/rpc-budget.ts:222-229 | stop rejects the waiters in order and grants nobody |
| RpcBudgetService.NewEndpointsExactly | shared/evm/rpc-budget.ts:123-138 | each configured key has the limit configured last for it and full buckets |
| RpcBudgetService.OnlyConfigured | shared/evm/rpc-budget.ts:123-138 | no other key has an endpoint |
| RpcBudgetScheduler.Create | shared/evm/rpc-budget.ts:36-61 | construction throws exactly on a lease time, a limit or an allocation out of range, or a gap rate that is not below every limited endpoint rate |
| RpcBudgetScheduler.Scheduler.constructor | shared/evm/rpc-budget.ts:111-139 | the new object is the model's initial state |
| RpcBudgetScheduler.Scheduler.Search | shared/evm/rpc-budget.ts:248-267 | one pass finds what the model picks and refills exactly the buckets it reads |
| RpcBudgetScheduler.Scheduler.GrantLoop | shared/evm/rpc-budget.ts:247-281 | the loop ends in the model's state after all grants |
| RpcBudgetScheduler.Scheduler.ReclaimLeases | shared/evm/rpc-budget.ts:234-239 | removes the lapsed leases and their gap count |
| RpcBudgetScheduler.Scheduler.ExpireWaiters | shared/evm/rpc-budget.ts:240-244 | rejects the expired waiters |
| RpcBudgetScheduler.Scheduler.Rearm | shared/evm/rpc-budget.ts:282-307 | sets the timer to the least delay, at least one millisecond |
| RpcBudgetScheduler.Scheduler.DrainNow | shared/evm/rpc-budget.ts:231-308 | the whole drain equals the model's and keeps the invariant |
| RpcBudgetScheduler.Scheduler.Acquire | shared/evm/rpc-budget.ts:141-161 | accepts exactly when the model does and then equals its step |
| RpcBudgetScheduler.Scheduler.Cancel | shared/evm/rpc-budget.ts:164-171 | equals the model's cancel step and keeps the invariant |
| RpcBudgetScheduler.Scheduler.Release | shared/evm/rpc-budget.ts:173-181 | equals the model's release step and keeps the invariant |
| RpcBudgetScheduler.Scheduler.Fire | shared/evm/rpc-budget.ts:305 | a timer firing equals the model's step |
| RpcBudgetScheduler.Scheduler.Stop | shared/evm/rpc-budget.ts:222-229 | equals the model's stop step and keeps the invariant |
| CircuitBreaker.CountersSound | shared/evm/rpc-resilience.ts:202-307 | in every interleaving the half-open counter stays in 0..max(1, limit), is zero outside half-open, and failures stay below the threshold |
| CircuitBreaker.NothingStartsInCoolDown | shared/evm/rpc-resilience.ts:216-249 | while the cool-down lasts, however the ordinary calls in flight end, the circuit stays open and nothing is admitted |
| CircuitBreaker.LateProbeClosesEarly | shared/evm/rpc-resilience.ts:279-291 | an interleaving that closes an open circuit inside its cool-down |
| CircuitBreaker.OpenClosesExactly | shared/evm/rpc-resilience.ts:279-307 | exactly when a finishing call takes an open circuit to closed |
| CircuitBreaker.HalfOpenClosesExactly | shared/evm/rpc-resilience.ts:279-291 | a half-open circuit closes exactly when a successful probe supplies the last success needed and no other is counted in flight |
| CircuitBreaker.PhaseExactly | shared/evm/rpc-resilience.ts:202-292 | the phase after every step of every interleaving |
| CircuitBreaker.CountersExactly | shared/evm/rpc-resilience.ts:202-307 | the counters after every step of every interleaving |
| CircuitBreaker.StaysClosed | shared/evm/rpc-resilience.ts:216-231 | overlapping calls on a closed circuit keep it closed and counted as long as their results, as they come in, stay below the threshold |
| CircuitBreaker.OpensOnThreshold | shared/evm/rpc-resilience.ts:216-231 | it opens exactly on the result that reaches the threshold, also with overlapping calls |
| CircuitBreaker.ProbesWithinLimit | shared/evm/rpc-resilience.ts:246-292 | a run of overlapping calls stays within the probe limit exactly when no step of it overbooks |
| CircuitBreaker.ExceedsExactly | shared/evm/rpc-resilience.ts:246-268 | a step goes over the limit exactly when it starts a call in half-open while the probes in flight fill the limit and the counter shows fewer |
| CircuitBreaker.ProbesBounded | shared/evm/rpc-resilience.ts:262-292 | in every interleaving the probes in flight are at least the counter and at most the limit plus those left over when the phase began |
| CircuitBreaker.InitialTallied | shared/evm/rpc-resilience.ts:191-200 | a new breaker satisfies what that bound starts from, with nothing left over |
| CircuitBreaker.TidyWithinLimit | shared/evm/rpc-resilience.ts:262-292 | while no probe outlives its phase the counter is exact and the limit holds |
| CircuitBreaker.LateProbeFreesSlot | shared/evm/rpc-resilience.ts:279-281 | an interleaving in which a late probe lets two run under a limit of one |
| CircuitBreaker.OpensExactly | shared/evm/rpc-resilience.ts:216-232 | without overlap it opens exactly on the threshold-th recorded failure since the last success |
| CircuitBreaker.RunsUntilOpen | shared/evm/rpc-resilience.ts:209-214 | until then every call runs |
| CircuitBreaker.CoolDownIsQuiet | shared/evm/rpc-resilience.ts:235-249 | during the cool-down nothing runs and nothing changes |
| CircuitBreaker.AwakensAfterCoolDown | shared/evm/rpc-resilience.ts:235-244 | calls from the end of the cool-down on find a half-open breaker, and the first is a probe |
| CircuitBreaker.ClosesExactly | shared/evm/rpc-resilience.ts:262-292 | it closes exactly after max(1, limit) successful probes with no recorded failure between; a recorded failure re-opens it at once; every call until then is a probe |
| CircuitBreakerObject.Breaker.constructor | shared/evm/rpc-resilience.ts:191-200 | a new breaker is closed with all counters zero |
| CircuitBreakerObject.Breaker.Begin | shared/evm/rpc-resilience.ts:209-214 | admission and new fields are the model's |
| CircuitBreakerObject.Breaker.End | shared/evm/rpc-resilience.ts:216-231 | the fields after an attempt are the model's, in whatever state the breaker is by then |
| CircuitBreakerObject.Breaker.OpenCircuit | shared/evm/rpc-resilience.ts:294-300 | opens at the given reading with all counters zero |
| CircuitBreakerObject.Breaker.CloseCircuit | shared/evm/rpc-resilience.ts:302-307 | closes with all counters zero |
| SmoothRoundRobin.NextBalanced | shared/config/weighted-endpoints.ts:112-130 | a round keeps credits summing to zero and above minus the pool weight |
| SmoothRoundRobin.CreditAccount | shared/config/weighted-endpoints.ts:112-130 | credit is exactly the due share minus what was given |
| SmoothRoundRobin.PrefixFairness | shared/config/weighted-endpoints.ts:100-130 | in every prefix of t rounds n_i·W < t·w_i + W |
| SmoothRoundRobin.BlockFairness | shared/config/weighted-endpoints.ts:100-130 | W rounds choose candidate i exactly w_i times and return all credits to zero |
| WeightedEndpoints.EffectiveExact | shared/config/weighted-endpoints.ts:184-187 | the scaled weight is never rounded and lies between the floor and the configured weight |
| WeightedEndpoints.EffectiveIsHalved | shared/config/weighted-endpoints.ts:184-187 | it is the larger of the floor and the weight halved once per failure |
| WeightedEndpoints.SelectSound | shared/config/weighted-endpoints.ts:112-130 | a selection keeps the credit invariant and the weights |
| WeightedEndpoints.RecordSound | shared/config/weighted-endpoints.ts:147-162 | recording keeps the credit invariant and the weights |
| WeightedEndpoints.RecordInverse | shared/config/weighted-endpoints.ts:147-162 | success and failure undo each other exactly off the two ends of the penalty range, and touch one endpoint only |
| WeightedEndpoints.RecordDirection | shared/config/weighted-endpoints.ts:147-162 | a success never raises a failure count, a failure never lowers one, and neither moves credits or weights |
| WeightedEndpoints.SuccessesRestore | shared/config/weighted-endpoints.ts:147-187 | as many successes as an endpoint has failures restore its full weight, and more keep it |
| WeightedEndpoints.OutageUndone | shared/config/weighted-endpoints.ts:147-162 | n failures and n successes cancel exactly when the penalty did not run into its maximum or there was none before |
| WeightedEndpoints.CreditBounds | shared/config/weighted-endpoints.ts:112-130 | under any interleaving each credit lies above -W and at most (k-1)·W, and credits sum to zero |
| WeightedEndpoints.NoStarvation | shared/config/weighted-endpoints.ts:112-187 | under any interleaving every endpoint is chosen within any 100·k·W consecutive selections |
| WeightedEndpoints.SelectionsPlain | shared/config/weighted-endpoints.ts:112-130 | without failures the selector is the plain integer round-robin on the configured weights |
| WeightedEndpoints.PrefixProportion | shared/config/weighted-endpoints.ts:100-130 | in every prefix no endpoint is a whole selection ahead of its share |
| WeightedEndpoints.BlockProportion | shared/config/weighted-endpoints.ts:100-130 | W selections choose endpoint i exactly w_i times and restore the initial state |
| WeightedEndpoints.EveryBlockProportion | shared/config/weighted-endpoints.ts:100-130 | so does every later block |
| WeightedEndpointSelector.Create | shared/config/weighted-endpoints.ts:75-98 | construction throws exactly on an empty list or a weight that is not positive |
| WeightedEndpointSelector.Selector.constructor | shared/config/weighted-endpoints.ts:78-97 | a new selector has no credit and no failures |
| WeightedEndpointSelector.Selector.CreditAll | shared/config/weighted-endpoints.ts:113-124 | the loop credits everyone, totals the weights and finds the first richest |
| WeightedEndpointSelector.Selector.Select | shared/config/weighted-endpoints.ts:112-130 | the chosen index and the new credits are the model's |
| WeightedEndpointSelector.Selector.RecordSuccess | shared/config/weighted-endpoints.ts:147-152 | the new states are the model's; an unknown id changes nothing |
| WeightedEndpointSelector.Selector.RecordFailure | shared/config/weighted-endpoints.ts:154-162 | the new states are the model's; an unknown id changes nothing |
| Fills.RenderInjective | shared/market-data/fills.ts:138-139 | the key text determines the identity, even when a contract text contains colons |
| Fills.HaveSameExact | shared/market-data/fills.ts:126-152 | true exactly on equal multisets of canonical identities of concrete, readable legs; throws only for an unreadable amount |
| FillLegs.HaveSamePaired | shared/market-data/fills.ts:126-152 | true exactly when the legs can be paired one to one, each pair agreeing in type, in contract up to letter case and in the values of identifier, amount and end amount |
| FillLegs.SameLegExact | shared/market-data/fills.ts:138-139 | two legs have one identity exactly when they agree in those five respects |
| FillLegs.LowerExact | shared/market-data/fills.ts:139 | lower-casing identifies exactly the texts that differ in letter case only |
| FillLegs.AmountExactly | shared/market-data/fills.ts:263-267 | an amount is read exactly from one to 78 digits below 2^256 |
| FillLegs.AmountRoundTrip | shared/market-data/fills.ts:263-267 | the text of every unsigned 256-bit amount is read back |
| FillLegs.ValidExactly | shared/market-data/fills.ts:138-139 | a leg can be compared exactly when its three amounts can be read |
| FillLegs.ItemKinds | shared/market-data/fills.ts:17-24 | which item types are money, NFTs and criteria |
| Fills.ResolveExactly | shared/market-data/fills.ts:93-124 | a side is resolved exactly when it carries NFTs and the other carries none, or the legs are forwarded against payment from the other side only |
| FillOrder.ResolvePermutes | shared/market-data/fills.ts:96-124 | unless the items are sensitive the side does not depend on their order |
| FillOrder.ResolveSwaps | shared/market-data/fills.ts:96-124 | swapping all sides swaps the resolved side exactly when neither list of legs is lopsided |
| FillOrder.OrderMattersExactly | shared/market-data/fills.ts:126-152 | some order resolves differently exactly when the legs are compared, the considered ones are readable, an offered one is not, and the readable offered ones do not all find a partner |
| FillOrder.ReadableInsensitive | shared/market-data/fills.ts:96-152 | with readable NFT legs nothing is sensitive to order or sides and nothing throws |
| FillOrder.ResolveThrows | shared/market-data/fills.ts:126-152 | resolving throws exactly for an unreadable considered leg, or an unreadable offered one that is reached |
| FillOrder.StrikeThrows | shared/market-data/fills.ts:145-150 | the matching loop throws exactly when a leg is unreadable and all before it are found |
| FillOrder.TwoOrders | shared/market-data/fills.ts:145-150 | with the mismatch first the answer is none, with the unreadable leg first it throws |
| FillOrder.UnreadableExample | shared/market-data/fills.ts:145-150 | a concrete pair of such orders |
| FillPayments.PricedExactly | shared/market-data/fills.ts:158-210 | an execution is priced exactly when a side is resolved, its quantities are positive, all items are supported and the money qualifies |
| FillPayments.PriceOfExactly | shared/market-data/fills.ts:189-209 | money qualifies exactly when it is readable, in one currency, comes from the buyer and flows back only in a bid and never beyond the payment; the price is the gross payment |
| FillPayments.ExclusionsExactly | shared/market-data/fills.ts:175-188 | when an execution is unsupported or a swap, and the quantity reported |
| FillPayments.PriceExclusions | shared/market-data/fills.ts:189-203 | when the money is missing or mixed |
| FillPayments.SummarizePermutes | shared/market-data/fills.ts:158-210 | unless the items are sensitive the whole payment does not depend on their order |
| FillPayments.SummaryOrderExactly | shared/market-data/fills.ts:158-210 | some order is summarized differently exactly when the items are sensitive and every NFT quantity is positive |
| FillPayments.SummaryThrows | shared/market-data/fills.ts:158-210 | the summary throws exactly when resolving does, a counted quantity is not positive, or the money throws |
| FillPayments.PriceThrows | shared/market-data/fills.ts:189-203 | the money throws exactly when it is in one currency, some comes from the buyer and an amount to be added up is unreadable |
| FillPayments.QuantityIsLastOffset | shared/market-data/fills.ts:166-168 | the declared quantity equals the final running offset |
| FillPayments.AllocateExact | shared/market-data/fills.ts:276-313 | accepted exactly for a nonempty run of units inside the execution, which is paid the sum of its units' shares |
| FillPayments.UnitShareFair | shared/market-data/fills.ts:298-307 | every unit gets the floor or ceiling of the average and earlier units never less |
| FillPayments.PaymentConservation | shared/market-data/fills.ts:221-240 | allocating every sold item of a priced execution with its own offset never throws and the prices add up to the total exactly |
| FillPayments.PrepareExactly | shared/market-data/fills.ts:223-240 | preparing succeeds exactly when the summary does and every item is at its index, readable, and positive if sold; each item carries the sold units before it |
| FillExecution.HaveSameConcreteNfts | shared/market-data/fills.ts:126-152 | the count-map loops answer true exactly when the legs can be paired, and otherwise as the bag comparison does, including which error comes first |
| FillExecution.PrepareFillExecution | shared/market-data/fills.ts:223-240 | the running-offset loop refuses exactly the invalid executions and numbers the sold units |
| OperationStream.FrameSum | shared/bootstrap/operation-stream.ts:94-103 | framing a text in two parts: only the unfinished tail meets the second part |
| OperationStream.ReturnedExactly | shared/bootstrap/operation-stream.ts:37-110 | a result is returned exactly when every line is within the limit, the tail is blank and the nonblank lines are progress 1..n and then that result |
| OperationStream.ReportedExactly | shared/bootstrap/operation-stream.ts:69-124 | a failure is reported exactly under the same framing with a failure record last |
| OperationStream.SuccessCallbacks | shared/bootstrap/operation-stream.ts:41-66 | on success the callbacks are the payloads of all progress records in order |
| OperationStreamReader.CountBytes | shared/bootstrap/operation-stream.ts:80-93 | byte counting over a chunk accepts exactly the texts within the record limit |
| OperationStreamReader.ConsumeLines | shared/bootstrap/operation-stream.ts:97-105 | the inner loop reads exactly the complete lines and keeps the tail |
| OperationStreamReader.ReadBootstrapStream | shared/bootstrap/operation-stream.ts:22-131 | for every split into chunks the verdict is that of the whole text, and so are the callbacks as long as every record is within the limit; beyond it they are an initial part of those |
| Migrations.StepKeepsInv | shared/database/migrations.ts:12-17 | every step of every runner keeps the protocol invariant |
| Migrations.AppliesNextMissing | shared/database/migrations.ts:47-60 | whatever runner commits, the file applied is the next missing one |
| Migrations.MigrationsExactlyOnce | shared/database/migrations.ts:9-64 | in every interleaving with rollbacks and retries no file is applied twice or out of order, and a finished runner leaves nothing missing |
| Migrations.CommittedPrefix | shared/database/migrations.ts:9-64 | started from a prefix of the list, the committed names are always a longer prefix of it |
| Migrations.RunsEnd | shared/database/db.ts:83-101 | busy retries are bounded: no run has more than 5·files + 1 steps per runner |
| Migrations.RetriesExactly | shared/database/db.ts:83-101 | busy attempts followed by a commit are possible exactly up to two, and then the file is applied and the runner moves on |
| Migrations.OpenNotRetried | shared/database/db.ts:201-207 | an attempt that left its transaction open is not repeated |
| Migrations.AppliedSkipped | shared/database/migrations.ts:12-17 | files already applied are passed over without a transaction |
| Migrations.MissingAttempted | shared/database/migrations.ts:12-17 | a file not in the table is put to a transaction |
| Migrations.SmoothRunsFinish | shared/database/migrations.ts:9-18 | a maximal run without errors has finished every runner with every file committed |
| MigrationRunner.Database.RunSingle | shared/database/migrations.ts:47-64 | one file with up to three attempts is a run of the protocol |
| MigrationRunner.Database.RunMigrations | shared/database/migrations.ts:9-18 | the whole loop is a run of the protocol; it applies missing files in order, all of them on success |
| ContractDeployment.ParseExactly | shared/evm/contract-deployment.ts:21-42 | exactly the valid boundaries are accepted, and a saved boundary reads back as itself |
| ContractDeployment.GivenExactly | shared/evm/contract-deployment.ts:56-69 | a valid saved progress is where the call starts; without one it starts before genesis, unchecked |
| ContractDeployment.SettleBoundary | shared/evm/contract-deployment.ts:79-85 | the search settles on a block with code whose predecessor has none |
| ContractDeployment.AnswerIsDeployment | shared/evm/contract-deployment.ts:44-86 | from truthful progress the answer is a deployment boundary, and the first block with code when code never disappears |
| ContractDeployment.ProbesLogarithmic | shared/evm/contract-deployment.ts:79-84 | the loop reads at least floor(log2 d) and at most ceil(log2 d) blocks |
| ContractDeployment.FindContractDeploymentBlock | shared/evm/contract-deployment.ts:47-86 | errors only for invalid input, an upper block without code or a failed read; reads are at the lower middle of the bounds; every checkpoint parses back, stays truthful and resumes to the same answer at the cost of the reads still missing; block -1 is never read |
| Decimal.CanonicalOrder | shared/database/current-asks.ts:9-13 | for canonical text of any length, order by (length, text) is numeric order |
| Decimal.NormalIsToDec | shared/database/current-asks.ts:10-13 | stripping leading zeros yields the canonical text of the same number |
| CurrentAsks.BeforeIsCheaper | shared/database/current-asks.ts:44-49 | the query's ORDER BY is numeric price, then currency, then id |
| CurrentAsks.MatchesExactly | shared/database/current-asks.ts:15-47 | which orders are on offer for a scope |
| CurrentAsks.CurrentAskExact | shared/database/current-asks.ts:34-50 | the answer is exactly the match that is cheaper than every other match; empty exactly when nothing matches |
| CurrentAsks.CurrentAskIsNumericallyLeast | shared/database/current-asks.ts:43-49 | the selected price is numerically least |
| CurrentAsks.CurrentAskPermutes | shared/database/current-asks.ts:43-49 | the storage order of the rows is irrelevant |
| TokenScope.NormalizeIdempotent | shared/evm/token-id.ts:6-14 | normalizing twice is normalizing once |
| TokenScope.NormalizeIdentifies | shared/evm/token-id.ts:6-14 | two accepted texts normalize alike exactly when their values are equal |
| TokenScope.AcceptedExactly | shared/evm/token-id.ts:6-14 | a text is accepted with a value exactly when it is one to 78 digits denoting it, at most 2^256 - 1, with white space around them |
| TokenScope.SeventyEightDigits | shared/evm/token-id.ts:2-3 | the longest token id has 78 digits |
| TokenScope.PersistenceRoundTrip | shared/collections/token-scope.ts:31-86 | a scope survives a write and a read exactly when it is valid |
| TokenScope.ConstructedValid | shared/collections/token-scope.ts:63-86 | whatever is read from storage is a valid scope |
| TokenScope.FromPersistenceExactly | shared/collections/token-scope.ts:31-86 | exactly which stored rows give which scope |
| TokenScope.ContainsExplicit | shared/collections/token-scope.ts:114-124 | an explicit scope asks for the normalized id and contains nothing else |
| TokenScope.IntersectExact | shared/collections/token-scope.ts:114-161 | an id lies in the intersection exactly when it is requested and contained |
| TokenScope.IntersectEmpty | shared/collections/token-scope.ts:135-161 | null exactly when no id is both requested and contained |
| FeePolicy.MultiplyByBpsCeilExact | shared/evm/transactions.ts:593-599 | the least sufficient integer exactly when the product is not negative or divides evenly |
| FeePolicy.RoundsUpTooFar | shared/evm/transactions.ts:593-599 | a negative product that is rounded one too far |
| FeePolicy.PriorityIsLargest | shared/evm/transactions.ts:222-232 | the priority fee is the largest of the floor, the node's value and every positive history sample |
| FeePolicy.FirstRewardsExact | shared/evm/transactions.ts:624-633 | the samples are exactly the first rewards of the blocks that have one |
| FeePolicy.FeesExact | shared/evm/transactions.ts:215-252 | on success base + priority <= maxFee <= cap; the fee is the base with least sufficient headroom plus priority, or the cap if that is less; the cap error occurs exactly when cap < base + priority |
| FeePolicy.FormatDecimalExact | shared/evm/transactions.ts:655-667 | for power-of-ten denominators the text reads back exactly precisely when the value is not negative or has no fraction |
| FeePolicy.RenderedAmounts | shared/evm/transactions.ts:540-547 | gwei amounts and fee multipliers read back exactly |
| Terraforms.ResolveLevelAndTileFromPlacement | shared/extensions/terraforms.ts:495-522 | the loop with running bounds computes the first level whose end lies beyond the rotated placement |
| Terraforms.WalkLands | shared/extensions/terraforms.ts:505-517 | a position inside the map lands on the one level that holds it |
| Terraforms.WalkFinds | shared/extensions/terraforms.ts:505-517 | every pair on the map is where its own position lands |
| Terraforms.PlacementBijection | shared/extensions/terraforms.ts:495-522 | for any level sizes and nonnegative seed, placements correspond one to one to (level, tile) pairs |
| Terraforms.LocateOnMapExactly | shared/extensions/terraforms.ts:499-522 | for any placement and seed the pair is on the map exactly when the rotation is not negative |
| Terraforms.NegativePlacement | shared/extensions/terraforms.ts:499-522 | placement -10197 is sent to tile -1 of level zero |
| Terraforms.HypercastlePlacements | shared/extensions/terraforms.ts:495-522 | each of the contract's placements has a tile of its own |
| Terraforms.HypercastleTotal | shared/extensions/terraforms-structure.ts:26-28 | the contract's table holds 11104 parcels |
| Terraforms.ResolveUnmintedPlacements | shared/extensions/terraforms.ts:545-564 | throws exactly for an out-of-range placement; otherwise minted and unminted placements partition the supply, unminted ascending |
| Terraforms.ParseBuilt | shared/extensions/terraforms.ts:525-542 | parsing a built id returns its placement |
| Terraforms.BuildParsed | shared/extensions/terraforms.ts:525-542 | building a parsed id restores the text exactly when it had no superfluous zeros |
| Terraforms.ParseExactly | shared/extensions/terraforms.ts:532-542 | which texts are parsed to a placement, which throw and which are no such id |

## Left out

- RpcBudgetScheduler.Scheduler.Search: each endpoint's buckets are values in a map instead of limiter objects, so sharing of a limiter between endpoints is not captured; the limiter object itself is `TokenBucketRateLimiter.RateLimiter`.
- RpcBudgetScheduler.Scheduler.DrainNow: the clock is read once per drain, so a clock that moves while one synchronous drain runs is not captured.
- The scheduler's `snapshot()` and the selector's `snapshot()` and `selectHighestEffectiveWeight()`: read-only counts and maxima.
- The queue that serializes `acquire()` of the rate limiter, retries, request timeouts and observability hooks.
- Floating-point rounding: tokens are reals and weights exact scaled integers.
- Network attempts, abort signals and error classification: an attempt ends in success, a recorded or an unrecorded failure.
- WeightedEndpointSelector.Create: takes ids and integer weights; URL and protocol validation of endpoint lists is not modelled.
- Fills.HaveSameExact: lower-casing covers ASCII letters, which is all an address contains; item sides are one of the two known values, so the refusal of any other side text is not modelled.
- FillPayments.AllocateExact: takes the four numbers instead of their decimal texts.
- The unit-price comparison, participant resolution and attribution check of `shared/market-data/fills.ts`: each is settled by one branch.
- OperationStreamReader.ReadBootstrapStream: bytes are characters and a line decodes to a record by a parameter, so UTF-8 and JSON decoding, field-by-field record validation, read errors, aborts and throwing callbacks are not captured.
- Migrations.MigrationsExactlyOnce: a write transaction is one atomic step that commits or leaves no effect; SQLite itself, backoff delays and directory reading are not modelled, and every runner sees the same list.
- MigrationRunner.Database.RunMigrations: one runner alone; the interleavings are covered by the state machine.
- ContractDeployment.FindContractDeploymentBlock: a fixed predicate says which blocks have code, and a failed read ends the call; persistence failures end it the same way and are not distinguished.
- CurrentAsks.CurrentAskExact: the query is a filter and a least row; SQL text, binding and indexes are not modelled, and ids are distinct because they are the primary key.
- TokenScope.IntersectExact: for the all-tokens and range kinds; a scope of explicit ids answers null to every range.
- FeePolicy.FeesExact: assumes a base fee that is not negative, as a block's is; nonce policy, history block count and percentile validation are not modelled.
- Terraforms renderer seeds, hashing, character tables and attribute extraction: foreign calls and constant data.
- HTTP routes, configuration parsing, bootstrap pipeline status, user interfaces, dashboards and command-line tools.
