# Verified model of a CEX/DEX arbitrage bot's core

A Dafny model of the parts of the bot where a mistake costs money or gets it banned: walking
order books, staying within exchange rate limits, handing out transaction nonces, rebalancing
inventory under a trading pause, migrating its database, pricing gas, scaling token amounts,
normalising orders, aggregating prices, and failing over between RPC endpoints. Code that the
source writes as loops and updates is modelled as methods and classes, proved against
functions; the theorems are about those functions, for all inputs, runs and interleavings.

`dafny verify dfyconfig.toml` checks the whole project.

## Modules

| module | what it holds |
|---|---|
| `OrderBook` | snapshots, `walk_the_book`, `depth_at_bps`, `effective_spread`, building a snapshot from a depth response |
| `LevelWalks`, `BookTheorems` | optimality, averages, slippage, depth and splitting on every valid book; bids are handled as asks at negated prices |
| `RateLimiter`, `LimiterTheorems` | token buckets and the keyed limiter; independence of keys and the sliding-window bound |
| `HttpClient`, `WaitTheorems`, `SendTheorems` | waiting for budget, header sync, backoff and retries; when lone and grouped callers are served, and what a send is granted |
| `NonceManager`, `NonceTheorems` | nonce reservation; the ledger of reservations and every interleaving of senders |
| `Rebalance`, `RebalanceTheorems` | the rebalance pass and loop with their journal |
| `TradingPause`, `PauseTheorems` | the pause prologue of the trading tick, alone and interleaved with the rebalance loop |
| `Migrations`, `MigrationTheorems` | the schema migrator and resuming it after failures |
| `Fees`, `Amounts`, `Orders`, `Median`, `Failover` | gas fees, token amounts, order normalisation, price median, RPC failover |
| `Sorting`, `RealArith`, `NatArith`, `Options` | shared definitions |

## Modelling decisions

- Decimals in the order book, order normalisation and median are exact reals; the rounding of
  the decimal library at 28 digits is not modelled there. In `Amounts` decimals have a 96-bit
  mantissa and at most 28 fractional digits, and losing digits is modelled.
- Time is a monotonic clock in nanoseconds, passed to each operation; one operation acts on
  one reading, where the source may read the clock again a moment later.
- The floating-point threshold of a bucket (0.9 of the quota, truncated) is `max * 9 / 10`,
  which it equals for every 32-bit quota.
- A decimal product that overflows aborts in the source; `FromHuman` returns `Overflow` there.
- 32-bit, 64-bit and 256-bit arithmetic is written out. The sum of used and requested weight and
  the backoff of an RPC call wrap around, as in a release build; theorems that need no wrap say so.
- The chain, the exchange, validation, execution, signing and sending are inputs: each call
  comes with the answer it would get. A hash map is given in the order it is iterated.
- Setting or clearing the pause slot and journaling it is one step, as is a critical section
  under a mutex.
- Proofs hide the bodies of functions they do not need (`hide`), so nonlinear arithmetic stays
  in `RealArith`, `NatArith` and a few small lemmas.

## Where the code differs from what one would expect

- A sell walk that fills nothing has average price zero and so reports 10000 basis points of
  slippage; a buy that fills nothing reports none (`EmptyWalkSlippage`).
- A reset after a 429 refills the whole budget at once, so the sliding-window bound grows by
  one budget per reset. Every bucket with a window and a budget reaches it, so twice the budget is
  the limit if and only if there is no reset (`SlidingWindowBound`, `BoundIsReached`, `TwiceHoldsExactly`).
- A request heavier than the budget waits forever, as long as its sum with the used weight does
  not wrap around 32 bits (`OverweightWaitsForever`, `WrappingGrant`).
- `verify_cex_balance` answers "nothing" both for a failed fetch and for no mismatch, and its
  caller takes that as a failed fetch; with verification on, the first executed trade always
  ends the pass (`FirstTradeEndsThePass`).
- The documentation says ticks pause while a rebalance plan is executing. No tick starts
  trading then, but one already under way is not waited for (`NoTickEntersDuringAStep`,
  `FirstStepOverlapsExactly`, `TickUnderWayOverlaps`).
- Resetting a nonce key, or reporting the same failure twice, can hand out a nonce that is
  still held (`ResetIsSafeExactly`, `StrayFailureReissuesExactly`, `FailingTwiceReissues`).
- With versions that do not strictly increase, an interrupted migration run loses a migration
  (`ResumeIsExact`).
- Past 28 decimals the token scale silently falls back to one (`ScalingHoldsExactly`).
- Past 58 retries the backoff of an RPC call overflows 64 bits and falls short, and from the 63rd
  on there is none (`BackoffIsGeometric`, `BackoffIsCut`).
- Two buys priced separately on the same book may cost more than one buy of their sum, once the
  sum exceeds the depth (`SplittingIsSureExactly`).

## Model

| member | source | states |
|---|---|---|
| OrderBook.FillFromLevels | src/exchange/orderbook.rs:41-62 | The fill loop computes the fills, cost, quantity and remainder of the recursive walk, for any levels and any quantity |
| OrderBook.WalkTheBook | src/exchange/orderbook.rs:24-89 | "buy" walks the asks and "sell" the bids, any other side is rejected with that side; no slippage without a positive best price |
| OrderBook.DepthAtBps | src/exchange/orderbook.rs:93-135 | "bid" sums the bids and "ask" the asks up to the first level outside the band, any other side is rejected; zero without a positive best price |
| OrderBook.EffectiveSpread | src/exchange/orderbook.rs:162-176 | The spread between the averages of the two walks over the mid, and zero without a positive quantity or mid |
| OrderBook.ParseLevels | src/exchange/client.rs:606-619 | All levels in order, or nothing if any entry does not parse |
| OrderBook.SortBids | src/exchange/client.rs:612 | Bids come out descending, as a permutation of the input |
| OrderBook.SortAsks | src/exchange/client.rs:620 | Asks come out ascending, as a permutation of the input |
| OrderBook.FetchOrderBook | src/exchange/client.rs:606-653 | Fails exactly when an entry does not parse; otherwise both sides are stably sorted permutations of the feed with their first levels as best and the mid and quoted spread between them, and a feed of positive prices and non-negative sizes gives a valid book |
| OrderBook.QuotesAreExact | src/exchange/client.rs:622-637 | The mid lies halfway between the best prices and the quoted spread is 10000 times their distance over it; neither exists with a side missing |
| Sorting.SortCorrect | src/exchange/client.rs:612-620 | Sorting by a key orders and permutes |
| Sorting.SortStable | src/exchange/client.rs:612-620 | Sorting keeps the order of entries with equal keys, so the best level among equal prices is the first in the feed |
| LevelWalks.TakenIsMin | src/exchange/orderbook.rs:47-62 | A walk takes the smaller of the request and the depth, and nothing for a request that is not positive |
| LevelWalks.FillsFollowLevels | src/exchange/orderbook.rs:47-62 | The fills are the first levels in order at their prices, each taken whole except the last, and cost quantity times price |
| LevelWalks.FillsStopWhenDone | src/exchange/orderbook.rs:47-50 | A level is touched if and only if those before it do not hold the whole quantity |
| LevelWalks.GreedyIsCheapest | src/exchange/orderbook.rs:41-62 | On ascending levels any allocation within the level sizes costs at least what the walk pays for the same total |
| LevelWalks.CostSlope | src/exchange/orderbook.rs:47-62 | Between two quantities the cost grows at least at the cheapest price |
| LevelWalks.MarginalPriceBounds | src/exchange/orderbook.rs:47-69 | The price of the last unit bounds the average so far from above and the cost of every later unit from below |
| LevelWalks.CostRatio | src/exchange/orderbook.rs:64-69 | The average cost is non-decreasing in the quantity |
| LevelWalks.CostSuperadditive | src/exchange/orderbook.rs:47-62 | One large walk costs at least two separate small ones while the depth lasts |
| LevelWalks.WalkSplits | src/exchange/orderbook.rs:47-62 | Walking a and then b on what is left equals walking a + b in quantity and cost |
| LevelWalks.CostWithinBand | src/exchange/orderbook.rs:118-132 | Up to the depth within a band, every unit costs at most the edge of the band |
| LevelWalks.BandIsTight | src/exchange/orderbook.rs:118-132 | A quantity is within the band's depth if and only if all of its units are priced within the band |
| BookTheorems.WalkFillsWhatItCan | src/exchange/orderbook.rs:41-64 | On a valid book the fills sum to min(qty, depth) and to the reported cost, the levels consumed are the fills, and the order is fully filled if and only if the depth suffices |
| BookTheorems.GreedyWalkIsOptimal | src/exchange/orderbook.rs:41-69 | No allocation of the filled quantity is cheaper to buy or earns more when sold |
| BookTheorems.GreedyWalkIsAttained | src/exchange/orderbook.rs:41-69 | The walk is itself such an allocation |
| BookTheorems.AverageIsExact | src/exchange/orderbook.rs:64-69 | The average times the filled quantity is the cost, and zero when nothing is filled |
| BookTheorems.AveragesWorsen | src/exchange/orderbook.rs:64-69 | The average buy price is non-decreasing and the average sell price non-increasing in the quantity, past the depth as well |
| BookTheorems.AverageNoBetterThanBest | src/exchange/orderbook.rs:64-79 | No positive walk averages better than the best price |
| BookTheorems.SlippageIsExact | src/exchange/orderbook.rs:71-84 | With depth, slippage times best price times filled quantity is 10000 times what was overpaid (buy) or not earned (sell) against the best price |
| BookTheorems.SlippageGrows | src/exchange/orderbook.rs:71-84 | Slippage never shrinks with size |
| BookTheorems.EmptyWalkSlippage | src/exchange/orderbook.rs:65-84 | A buy of nothing, or into an empty side, reports no slippage; a sell reports less than 10000 basis points if and only if the quantity is positive and the bids have depth |
| BookTheorems.SpreadIsExact | src/exchange/orderbook.rs:162-176 | With depth on both sides the effective spread times the mid is 10000 times the distance of the two averages |
| BookTheorems.EffectiveSpreadGrows | src/exchange/orderbook.rs:162-176 | With depth on both sides the effective spread is at least the quoted one and grows with size; otherwise it is zero |
| BookTheorems.DepthCountsEveryLevel | src/exchange/orderbook.rs:106-132 | The early break loses nothing: the depth is the sum over all levels priced within bps / 10000 of the best price |
| BookTheorems.DepthBoundsSlippage | src/exchange/orderbook.rs:93-135 | Any positive quantity up to the queried depth is fully filled with slippage at most the queried basis points |
| BookTheorems.DepthIsTheWholeBand | src/exchange/orderbook.rs:118-134 | The queried depth is exactly the largest quantity all of whose units are priced within bps / 10000 of the best price |
| BookTheorems.SplittingComposes | src/exchange/orderbook.rs:47-62 | Walking a and then b on the book left behind gives the cost and quantity of a + b, on either side |
| BookTheorems.SplittingNeverHurts | src/exchange/orderbook.rs:47-62 | One buy costs at least two fresh ones while the book holds both; one sell earns at most two fresh ones for any quantities |
| BookTheorems.BuyingBeyondDepth | src/exchange/orderbook.rs:47-62 | For buys the comparison fails on every book with ask depth as soon as one of the two already takes all of it |
| BookTheorems.SplittingIsSureExactly | src/exchange/orderbook.rs:47-62 | Among all books of a given ask depth, one buy always costs at least two fresh ones if and only if their sum is within that depth |
| RateLimiter.TokenBucket.constructor | src/exchange/rate_limiter.rs:157-164 | A new bucket is empty, starts its window now and is not discovered |
| RateLimiter.TokenBucket.ResetIfExpiredNow | src/exchange/rate_limiter.rs:166-171 | The window restarts empty when its whole seconds have elapsed, and otherwise nothing changes |
| RateLimiter.TokenBucket.TryAcquireWeighted | src/exchange/rate_limiter.rs:173-182 | Resets if expired, then grants and charges the weight if the 32-bit sum is within nine tenths of the quota |
| RateLimiter.TokenBucket.SecsUntilReset | src/exchange/rate_limiter.rs:184-188 | The least number of whole seconds after which the window has expired |
| RateLimiter.TokenBucket.UpdateUsedWeight | src/exchange/rate_limiter.rs:190-199 | Resets if expired, then takes the reported weight |
| RateLimiter.TokenBucket.UpdateQuotaFromLimit | src/exchange/rate_limiter.rs:201-214 | Takes a non-zero limit that is new, and marks the quota discovered |
| RateLimiter.TokenBucket.UpdateQuota | src/exchange/rate_limiter.rs:216-229 | Takes the non-zero parts of the quota |
| RateLimiter.TokenBucket.ResetAfter429 | src/exchange/rate_limiter.rs:231-234 | Empties the bucket and restarts its window |
| RateLimiter.Limiter.constructor | src/exchange/rate_limiter.rs:265-269 | One bucket, for request weight per minute |
| RateLimiter.Limiter.BucketMut | src/exchange/rate_limiter.rs:277-291 | The key's own bucket, created with the default quota if missing; other buckets are untouched |
| RateLimiter.Limiter.TryAcquireFor | src/exchange/rate_limiter.rs:361-363 | One limiter step on that key, with its answer |
| RateLimiter.Limiter.UpdateUsedWeightFor | src/exchange/rate_limiter.rs:373-375 | One limiter step on that key |
| RateLimiter.Limiter.UpdateQuotaFromLimitFor | src/exchange/rate_limiter.rs:378-380 | One limiter step on that key |
| RateLimiter.Limiter.UpdateQuotaFor | src/exchange/rate_limiter.rs:383-385 | One limiter step on that key |
| RateLimiter.Limiter.RegisterBucket | src/exchange/rate_limiter.rs:414-426 | Replaces the key's bucket by a fresh one with the interval's window |
| RateLimiter.Limiter.ResetAfter429 | src/exchange/rate_limiter.rs:331-336 | Resets every bucket, and adds or removes none |
| LimiterTheorems.BucketsAreIndependent | src/exchange/rate_limiter.rs:277-426 | For every run and key, the key's final bucket and all its answers are those of a single bucket fed only that key's operations, with lazy creation, registration as restart, and 429 resets |
| LimiterTheorems.SlidingWindowBound | src/exchange/rate_limiter.rs:166-182 | In any half-open interval as long as the window at most (2 + resets inside) budgets are granted, for every run of acquires and 429 resets at non-decreasing times |
| LimiterTheorems.BoundIsReached | src/exchange/rate_limiter.rs:166-234 | For every bucket with a window and a budget and every number k of 429 resets, a run within the conditions of the bound has k resets in the interval and is granted exactly (2 + k) budgets in it |
| LimiterTheorems.TwiceHoldsExactly | src/exchange/rate_limiter.rs:166-234 | Every run with k resets in the interval stays within twice the budget if and only if k is zero, or the window or the budget is |
| LimiterTheorems.LimiterSlidingWindow | src/exchange/rate_limiter.rs:361-363 | The same bound for one key of the whole limiter over every interleaving with other keys, whether the key exists, is created on the way, or first sees resets |
| LimiterTheorems.WrappingGrant | src/exchange/rate_limiter.rs:175-177 | Weight is granted if and only if the true sum is within nine tenths of the quota, or it wraps past 32 bits to something that is |
| LimiterTheorems.BudgetIsNineTenths | src/exchange/rate_limiter.rs:175 | The budget is nine tenths of the quota, rounded down |
| LimiterTheorems.GrantIsExact | src/exchange/rate_limiter.rs:166-182 | Below 32 bits weight is granted if and only if ten times the new count is at most nine times the quota, where the count is zero once the window's seconds have passed; the count, window and quota afterwards |
| LimiterTheorems.WindowInQuota | src/exchange/rate_limiter.rs:166-182 | The sliding-window bound as nine tenths of the quota, twice and once per reset |
| LimiterTheorems.ReportedCountIsTaken | src/exchange/rate_limiter.rs:190-199 | A reported count replaces the count, in the window running then |
| LimiterTheorems.ReportedLimitIsTaken | src/exchange/rate_limiter.rs:201-214 | After a limit other than zero the quota is that limit and discovered; nothing else changes |
| LimiterTheorems.UpdatedQuotaIsTaken | src/exchange/rate_limiter.rs:216-229 | Each part that is not zero is taken; count and window stay |
| LimiterTheorems.StepIsLocal | src/exchange/rate_limiter.rs:277-426 | A step touches the named bucket alone; a missing one is created empty with weight 60 over its interval, a registered one with the given weight, and a 429 empties all |
| HttpClient.CheckRateLimit | src/exchange/http_client.rs:300-316 | The loop asks at each wake-up and stops at the first one that grants the weight, leaving the limiter as those attempts leave it |
| HttpClient.WaitUsesOneBucket | src/exchange/http_client.rs:300-316 | Waiting is decided by the default bucket alone, and every other bucket stays as it was |
| HttpClient.BackoffIsExact | src/exchange/http_client.rs:357-360 | Up to 2^32 attempts the saturating computation is the exact product with the power of two, capped |
| HttpClient.SyncRateLimitHeaders | src/exchange/http_client.rs:318-346 | The limiter ends as after the limit, the used weight and the counts of the four intervals, applied in order |
| HttpClient.SendTracked | src/exchange/http_client.rs:217-294 | Every earlier reply was a connect error, a timeout or a 429 that is to be retried; the last one gives the result, and is final or the retries are spent; one capped backoff between attempts from the reply's retry-after or 10 seconds; the limiter ends as the operations of the attempts leave it |
| SendTheorems.ChargedOncePerAttempt | src/exchange/http_client.rs:233-238 | Over a whole send the default bucket grants exactly one acquire per attempt |
| SendTheorems.ReportedCountsAreTaken | src/exchange/http_client.rs:318-346 | After the headers every count reported for an interval is the count of its bucket, otherwise the plain used weight is that of the default bucket, and unmentioned buckets are unchanged |
| SendTheorems.ReportedLimitIsKept | src/exchange/http_client.rs:318-323 | A reported limit other than zero is the quota of the default bucket at the end |
| SendTheorems.EmptyAfter429 | src/exchange/http_client.rs:248-283 | After a 429 every bucket is empty with its window starting at the answer, whatever the headers said; with tracking off the limiter is not touched |
| SendTheorems.ResetsOnlyAfter429 | src/exchange/http_client.rs:248-283 | No other reply resets anything |
| SendTheorems.SendStaysInWindow | src/exchange/http_client.rs:217-294 | However often it retries, a send whose responses carry no limit headers is granted at most twice the budget plus one budget per 429 in any interval as long as the window |
| WaitTheorems.GrantedWhenReady | src/exchange/http_client.rs:300-316 | A weight within the budget is granted exactly at the first wake-up that finds room or an expired window |
| WaitTheorems.WaitIsBounded | src/exchange/http_client.rs:311-314 | A lone caller is served after at most one poll timeout per started 65 seconds of window, so after one for windows up to 65 seconds |
| WaitTheorems.OverweightWaitsForever | src/exchange/http_client.rs:300-316 | A weight above the budget is granted at no wake-up |
| WaitTheorems.GroupIsServed | src/exchange/http_client.rs:300-316 | Callers whose weights fit the budget together are each served by their first attempt after the running window expires, in any order of wake-ups |
| NonceManager.Manager.constructor | src/chain/nonce_manager.rs:30-32 | No key is known |
| NonceManager.Manager.ReserveNext | src/chain/nonce_manager.rs:34-57 | Gives the stored next nonce, or the chain's answer when none is stored, and stores its successor; fails if and only if neither exists, leaving the key unsynced |
| NonceManager.Manager.ObservePending | src/chain/nonce_manager.rs:59-76 | The next nonce becomes the larger of the stored and the observed one |
| NonceManager.Manager.MarkFailed | src/chain/nonce_manager.rs:78-98 | Rolls back only the latest reservation of a known key |
| NonceManager.Manager.Reset | src/chain/nonce_manager.rs:100-106 | Forgets the key and nothing else |
| NonceManager.SubmitWithNonce | src/bin/arb_bot.rs:1649-1674 | Reserve, sign, send, giving the nonce back once on failure: after a failure the same nonce is next, after success its successor, and other keys are untouched |
| NonceTheorems.StepKeepsAccount | src/chain/nonce_manager.rs:34-98 | Every event keeps the account: each nonce from the start to the next one is held by one holder, abandoned or jumped over, and only one of these |
| NonceTheorems.RunKeepsAccount | src/chain/nonce_manager.rs:34-98 | So does every legal run |
| NonceTheorems.FailsAtMostOnce | src/chain/nonce_manager.rs:78-98 | In a legal run every reservation is failed at most once |
| NonceTheorems.ReservationsAreDistinct | src/chain/nonce_manager.rs:34-98 | After every legal run no two holders have the same nonce, held nonces are below the next one, and a new reservation repeats no held, abandoned or skipped nonce, with stale observations allowed |
| NonceTheorems.CounterConserved | src/chain/nonce_manager.rs:54-86 | The counter has moved by exactly the number of held, abandoned and jumped-over nonces |
| NonceTheorems.CounterWithoutJumps | src/chain/nonce_manager.rs:54-86 | If no observation finds the chain ahead, the counter has moved by exactly the held and the abandoned nonces |
| NonceTheorems.CountingStartsAtTheChain | src/chain/nonce_manager.rs:44-57 | Without an answer of the chain a run hands out nothing and stores no nonce; otherwise counting starts at the first answer |
| NonceTheorems.FailureUndoesReservation | src/chain/nonce_manager.rs:78-87 | Reserving and failing at once restores the next nonce |
| NonceTheorems.SaturationRepeats | src/chain/nonce_manager.rs:54 | Consecutive reservations differ if and only if the counter is below its limit |
| NonceTheorems.StrayFailureReissuesExactly | src/chain/nonce_manager.rs:78-98 | A failure reported by a non-holder, such as a second report, makes a held nonce next again if and only if that nonce is held by now and is the latest reservation |
| NonceTheorems.FailingTwiceReissues | src/chain/nonce_manager.rs:78-98 | Every nonce can reach two holders that way |
| NonceTheorems.ResetIsSafeExactly | src/chain/nonce_manager.rs:100-106 | After a reset synced at p, later reservations reach a held nonce if and only if some held nonce is at least p |
| NonceTheorems.SendersRefineLedger | src/bin/arb_bot.rs:1766-1791 | Every interleaving of senders and observations is, for each key, a legal run of the ledger, whose holders are at the end exactly the senders that have not given up |
| NonceTheorems.SendersFailAtMostOnce | src/bin/arb_bot.rs:1649-1674 | In every interleaving each sender fails its reservation at most once |
| NonceTheorems.SendersNeverShareANonce | src/bin/arb_bot.rs:1649-1674 | No interleaving gives two senders the same nonce of the same account |
| Rebalance.RebalanceLoop.constructor | src/bin/arb_bot.rs:675 | Nothing paused, announced, halted or journaled |
| Rebalance.RebalanceLoop.ClearPause | src/bin/arb_bot.rs:997-1011 | Empties the pause slot and journals the resume |
| Rebalance.RebalanceLoop.VerifyAfterStep | src/bin/arb_bot.rs:1164-1239 | Accepts when verification is off or passes; journals each mismatch and halts the bot if and only if there is one |
| Rebalance.RebalanceLoop.RunStep | src/bin/arb_bot.rs:772-934 | One step: rejected, skipped in a dry run, failed, or completed and verified, with its journal entries, halt and continuation; it runs with the pause slot set when trading is to be paused, and leaves the slot alone |
| Rebalance.RebalanceLoop.RunSteps | src/bin/arb_bot.rs:770-936 | The nested loops journal the steps of the flattened plan up to the first that ends the pass, every one of them under the pause |
| Rebalance.RebalanceLoop.RunRebalanceCheck | src/bin/arb_bot.rs:708-940 | The whole pass: announces a changed plan, leaves the pause slot clear on every exit if it set it and untouched if not, and journals its events |
| Rebalance.RebalanceLoop.Run | src/bin/arb_bot.rs:684-704 | The loop journals its passes until it finds the bot halted, only ever leaves the slot as it was or clear, and keeps slot and journal agreed on whether trading is paused |
| RebalanceTheorems.PassRunsAPrefix | src/bin/arb_bot.rs:770-936 | The steps started are exactly a prefix of the flattened plan, in order; a dry run starts none |
| RebalanceTheorems.OnlyValidatedStepsRun | src/bin/arb_bot.rs:772-806 | Every started step was validated, all but the last succeeded and verified, and the pass stops only at a failure |
| RebalanceTheorems.StartedExactly | src/bin/arb_bot.rs:770-936 | A live pass starts a step if and only if it is valid and every earlier one was valid, executed and verified or verification is off |
| RebalanceTheorems.JournalIsExact | src/bin/arb_bot.rs:708-940 | How often each entry occurs in the journal of a pass: the announcement, pause and resume, and for every step that is reached its rejection, start, completion or failure, verification, mismatches and failed verification |
| RebalanceTheorems.HaltsExactly | src/bin/arb_bot.rs:1201-1224 | A pass halts the bot if and only if a step that it reaches finds a mismatch |
| RebalanceTheorems.LoopEndsExactly | src/bin/arb_bot.rs:684-704 | The bot is halted after the loop if and only if something else halted it or a pass found a mismatch |
| RebalanceTheorems.LoopGrowsByAPass | src/bin/arb_bot.rs:684-740 | Each turn adds exactly one pass to the journal unless the bot is halted or there is no plan, and announces the plan if and only if the turn before had another one or none |
| Rebalance.FlattenConcat | src/bin/arb_bot.rs:770-772 | The steps of several plans are those of each, in order |
| RebalanceTheorems.TradesAreNeverVerified | src/bin/arb_bot.rs:1183-1198 | Verification accepts a step if and only if it is off or the step is a withdrawal; a trade gets the fetched mismatches, or no answer when there are none |
| RebalanceTheorems.FirstTradeEndsThePass | src/bin/arb_bot.rs:4088-4117 | With verification on, a started trade is always the last step of its pass |
| RebalanceTheorems.PassIsBracketed | src/bin/arb_bot.rs:755-939 | However a pass ends its journal is well bracketed: steps open and close one at a time, only while paused when pausing is on, and nothing stays open |
| RebalanceTheorems.LoopIsBracketed | src/bin/arb_bot.rs:684-704 | So is the journal of the whole loop |
| RebalanceTheorems.MismatchStopsTheLoop | src/bin/arb_bot.rs:1223-1224 | Over the whole life of the loop no step starts after a balance mismatch |
| TradingPause.Ticker.TickPrologue | src/bin/arb_bot.rs:3767-3825 | The tick proceeds if and only if nothing pauses it; on a change of key it alerts the rebalance reason, or else the risk reason, and when it proceeds the key it had stored |
| TradingPause.SameKeyExactly | src/bin/arb_bot.rs:3752-3758 | Two reasons share a key if and only if they are equal or both begin with the hourly limit |
| TradingPause.RunTicks | src/bin/arb_bot.rs:3760-3825 | Any run of ticks stores and alerts as the log function says |
| TradingPause.AlertsTellTheTruth | src/bin/arb_bot.rs:3752-3825 | For every run: adjacent pauses have different keys, a resume follows a pause and carries its key, and the last alert tells the current pause exactly |
| TradingPause.OneAlertPerChange | src/bin/arb_bot.rs:3769-3777 | There is one alert for each change of the pause key and none otherwise |
| PauseTheorems.GuardIsKept | src/bin/arb_bot.rs:3767-3790 | While the pause slot is set, the ticks trading are exactly those under way when it was set that have not ended |
| PauseTheorems.SlotIsThePause | src/bin/arb_bot.rs:755-768 | In every interleaving the slot that ticks find set is set exactly while the journal of the loop says that trading is paused |
| PauseTheorems.NoTickEntersDuringAStep | README.md:209 | For every interleaving of ticks with the loop, the ticks trading while a step runs are those under way at the pause that have not ended, so a step overlaps a tick if and only if one is left |
| PauseTheorems.FirstStepOverlapsExactly | README.md:209 | A step started right after the pause overlaps a tick if and only if some tick was under way at the pause |
| PauseTheorems.TickUnderWayOverlaps | README.md:209 | Every loop whose first plan starts a step has a run in which a tick trades during it |
| Migrations.Connection.ApplyOne | src/executor/migrations.rs:20-32 | Batch and version change together, or neither does, whatever stage fails |
| Migrations.Connection.Migrate | src/executor/migrations.rs:11-36 | Commits the pending migrations in list order up to the first failure, nothing if the version cannot be read, and succeeds if and only if neither fails |
| MigrationTheorems.PendingIsExact | src/executor/migrations.rs:19 | Exactly the migrations newer than the version are pending, each as often as listed |
| MigrationTheorems.MigratedExactly | src/executor/migrations.rs:15-33 | A run appends the pending migrations up to the failing one and leaves the version of the last it appended |
| MigrationTheorems.SucceedsExactly | src/executor/migrations.rs:15-36 | It succeeds if and only if it read the version and leaves the database of an undisturbed run |
| MigrationTheorems.ResumeIsExact | src/executor/migrations.rs:15-33 | Failing after any number of commits and running again equals one uninterrupted run, if and only if the pending versions strictly increase |
| MigrationTheorems.SkippedOnResume | src/executor/migrations.rs:19 | A version not above its predecessor is lost when the run is cut between them |
| MigrationTheorems.RerunIsNoOp | src/executor/migrations.rs:15-33 | A further run changes nothing |
| MigrationTheorems.PrefixThenAll | src/executor/migrations.rs:15-33 | Migrating a prefix and later the whole list equals migrating the whole list |
| MigrationTheorems.FailuresLeaveNoTrace | src/executor/migrations.rs:15-33 | After any number of failed runs the one that succeeds leaves each pending migration applied once, in order |
| Fees.GasPriceFromFeeHistory | src/chain/client.rs:363-383 | The last base fee and the averages of the three columns of the rows that have them; nothing if and only if there is no base fee or no row of three |
| Fees.FullRowsExactly | src/chain/client.rs:369-375 | Exactly the rows with at least three percentiles are kept, each as often as it occurs |
| Fees.FullRowsConcat | src/chain/client.rs:369-375 | They keep their order |
| Fees.UniformHistory | src/chain/client.rs:369-394 | A history of equal rows gives the three fees of the row, each in its place |
| Fees.SaturatesOnce | src/chain/client.rs:389-392 | Saturating at every addition equals saturating the true sum once |
| Fees.AverageOfSum | src/chain/client.rs:385-394 | The average is at most the true mean, and its integer part while the sum fits 256 bits |
| Fees.HistoryIsTiered | src/chain/client.rs:363-394 | Ascending reward rows give ordered low, medium and high fees, saturation included |
| Fees.LegacyIsTiered | src/chain/client.rs:167-176 | The legacy fallback offers a quarter, a half and the whole of the gas price, rounded down, over the base fee of the block or else the gas price |
| Fees.MaxFeesAreOrdered | src/core/types.rs:969-992 | Maximum fees are ordered by priority |
| Fees.PrioritiesAreDistinct | src/core/types.rs:970-980 | Each priority offers its own fee, and a buffer below the minimum counts as the default |
| Fees.BufferSaturates | src/core/types.rs:985-989 | When scaling the base fee overflows, the largest value is offered |
| Fees.MaxFeeCovers | src/core/types.rs:982-991 | The maximum fee covers base and priority fee together, up to saturation, for any input |
| Fees.PricedRequestsPass | src/chain/builder.rs:128-138 | A request priced by the builder is never refused for its fees, for any gas price; it passes if and only if chain and gas limit are fine |
| Fees.FeeCheckIsExact | src/core/types.rs:831-855 | A request passes if and only if chain and gas limit are fine and, with both fees, at some base fee it can pay its whole priority fee by the rule of EIP-1559; a refusal names the first that fails |
| Fees.FullTipUpToBuffer | src/chain/builder.rs:128-138 | A request priced by the builder pays its whole priority fee at exactly the base fees up to the buffered one, or up to what saturation leaves |
| Fees.BufferIsAFifth | src/core/types.rs:982-991 | Without overflow those exceed the current base fee by at most a fifth, rounded up |
| Fees.MaxFeeIsExact | src/core/types.rs:985-991 | Without overflow the buffered base fee is the exact product rounded up |
| Amounts.ReducedIsExact | src/core/types.rs:625-626 | Multiplying a decimal by a power of ten drops only zeros and overflows only when the integer does not fit |
| Amounts.FromHumanIsExact | src/core/types.rs:608-645 | For up to 28 decimals an amount is accepted with a raw value if and only if it is not negative and scales to exactly that integer below 2^96 |
| Amounts.RefusalIsExact | src/core/types.rs:608-645 | A refusal names what is wrong: unparsable, negative, a scaled value of 2^96 or more, or not a whole number |
| Amounts.DivisionIsExact | src/core/types.rs:654-655 | Dividing by a scale of up to 28 digits never cuts a digit off |
| Amounts.HumanIsExact | src/core/types.rs:650-656 | There is a human value if and only if the raw amount fits 96 bits; it is a valid decimal equal to the raw amount over the scale |
| Amounts.HumanThenRaw | src/core/types.rs:650-656 | Reading back the human value of a raw amount gives that amount |
| Amounts.RawThenHuman | src/core/types.rs:608-656 | An accepted amount reads back as a decimal of the same value |
| Amounts.ScaleFits | src/core/types.rs:891-893 | The scale is the true power of ten if and only if there are at most 28 decimals |
| Amounts.UnscaledFromHuman | src/core/types.rs:891-893 | Past 28 decimals amounts are taken as raw units |
| Amounts.ScalingHoldsExactly | src/core/types.rs:608-645 | An accepted amount keeps its value if and only if there are at most 28 decimals or it is zero |
| Orders.FloorIsGreatest | src/exchange/client.rs:102-107 | Cutting a non-negative value to the grid gives the greatest grid value at or below it |
| Orders.AcceptedIsGreatest | src/exchange/client.rs:109-175 | An accepted order is the greatest on-grid order at or below the request and meets every filter |
| Orders.NormalizingTwice | src/exchange/client.rs:109-175 | Normalising an accepted order returns it |
| Orders.AcceptedExactly | src/exchange/client.rs:128-174 | A positive request is accepted if and only if some on-grid order at or below it meets every filter and the cut request exceeds no maximum |
| Orders.MinimumRejectionIsFinal | src/exchange/client.rs:128-173 | A rejection for a minimum means that no on-grid order at or below the request meets that minimum |
| Orders.RejectionIsTrue | src/exchange/client.rs:116-151 | A rejection for a maximum means that an on-grid value at or below the request exceeds it; a value that does not convert is reported, the quantity first |
| Orders.MaximumRejectionIsNotFinal | src/exchange/client.rs:145-151 | A rejection for a maximum does not mean that: under any filters with a maximum quantity that accept some order, a larger request is refused for it while that order is still at or below the request |
| Orders.ClampedIsExact | src/exchange/client.rs:128-174 | Lowering any request to the maxima first, it is accepted if and only if some on-grid order at or below the request meets every filter, and gives the greatest such order |
| Orders.NonPositiveIsRefused | src/exchange/client.rs:128-137 | Requests that are not positive are refused |
| Median.FetchAggregated | src/exchange/price_oracle.rs:86-164 | The sources that answer, in order, with the median and mean of their prices and, with an order-book mid, a bid and ask around it one estimated spread apart; fails exactly on a pair that does not split and when no source answers |
| Median.AnsweredExactly | src/exchange/price_oracle.rs:95-128 | Every source that answers is listed under its name with its price, at its place among those that do |
| Median.SplitsExactly | src/core/types.rs:291-303 | A pair splits if and only if it is two symbols, neither empty, around its only slash |
| Median.MedianIsTheMiddle | src/exchange/price_oracle.rs:281-292 | However the prices are put in order, the median lies halfway between the middle ones |
| Median.MeanPools | src/exchange/price_oracle.rs:295-301 | The mean weighs the means of two parts by their sizes, and a lone price is its own mean |
| Median.MedianIgnoresOrder | src/exchange/price_oracle.rs:135-138 | The median does not depend on the order of the sources |
| Median.MajorityBoundsMedian | src/exchange/price_oracle.rs:282-292 | If more than half of the prices lie in a range, the median does |
| Median.OutliersMoveMedian | src/exchange/price_oracle.rs:282-292 | As many outliers as honest prices can always push the median out of the range |
| Failover.WithProvider | src/chain/client.rs:303-360 | The first success in endpoint and retry order, or failure with the last error if and only if there is none, with the exact number of attempts and the total slept, each sleep computed with 64-bit wrap-around |
| Failover.FirstSuccessIsUnique | src/chain/client.rs:310-354 | The first success is determined by the replies |
| Failover.FailureIsTheWorstCase | src/chain/client.rs:310-354 | No call makes more attempts or sleeps longer than one that fails everywhere |
| Failover.BackoffIsGeometric | src/chain/client.rs:319-321 | The sleeps of an endpoint add up to 100 (2^r - 1) milliseconds if and only if there are at most 58 retries, and to less beyond |
| Failover.BackoffIsCut | src/chain/client.rs:319-321 | Each sleep is 100 times the power of two cut to 64 bits, and nothing from the 63rd retry on |

## Left out

- Executor engine, queue, recovery, reconcile store, inventory tracker, AMM and V3 pricing, WebSocket books, risk manager and strategy: not part of this model; where a modelled part calls them their answer is an input.
- HTTP, RPC, SQLite, file and environment access, response parsing, signing and wallets: only their outcomes appear.
- Extraction of values from response headers: the values are inputs; they can overwrite the count with anything, so the window and waiting theorems are about runs without them.
- `imbalance` and the timestamp of an aggregated price: floating-point or one-line outputs that would add only easy members.
- Alerts of the rebalance loop and the contents of journal entries: the journal's events and their order are modelled, their texts are not; writing the journal never fails in the model.
- The plan key and its label format: a key is an input.
- Classification of RPC error messages: the error keeps its text.
- Dashboards, reports, command lines, configuration and Bybit: wide but shallow.
- LimiterTheorems.SlidingWindowBound: not stated for runs with header updates or quota changes, because they set the count or the quota to any value.
- SendTheorems.SendStaysInWindow: not stated for responses with limit headers, for the same reason.
- HttpClient.SendTracked: one sender with its limiter; the concurrency permit and other senders between its attempts are not modelled, though `LimiterSlidingWindow` bounds every interleaving of them.
- Orders.AcceptedExactly: decimals are exact, so the rounding of a quotient at 28 digits is not covered.
