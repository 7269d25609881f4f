# Verified models of the relayer extensions

This project models the parts of the relayer extensions that keep state or do arithmetic, and
proves what they guarantee over whole runs. `dafny verify dfyconfig.toml` checks all of it.

| file | component |
|---|---|
| `StreamRegistry.dfy` | price reporter: the shared map of price streams |
| `ConnectionSupervisor.dfy` | price reporter: the loop that supervises one exchange connection |
| `RetryBudget.dfy` | price reporter: the sliding-window reconnect budget |
| `StreamTask.dfy` | price reporter: the task of one stream, with its cancellation and its retries |
| `RateLimiter.dfy` | funds manager: the Fireblocks rate limiter |
| `GasWallets.dfy` | funds manager: gas-wallet registration and reclaim |
| `FundsTransfers.dfy` | funds manager: gas refill pass and Hyperliquid withdrawal |
| `FeeIndexer.dfy` | funds manager: chunked, checkpointed fee indexing |
| `PrimeField.dfy`, `Dealer.dfy`, `DealerPairing.dfy` | SPDZ dealer: field, dealt randomness, pairing of requests |
| `PoolRunner.dfy` | pool runner: routing orders into managed pools and back |
| `StringifiedJson.dfy` | auth server: the number-stringifying JSON codec |
| `JsonText.dfy` | auth server: whole JSON texts, written and read back |
| `Wrappers.dfy` | the option type |

## How the models are built

An object that the source mutates is a class, and each method of it is one lock section or one
atomic access. Its contract gives the whole new state. Around the object stands a protocol: a
`State`, an `Event` for each access that a caller or background task makes, and `Next` (a
`Step` relation for the gas wallets). `IsTrace(ss, es)` says that `ss` are the states of a run
with events `es`, starting from the empty system. A theorem over `IsTrace` is therefore a
theorem about every interleaving. The object and the protocol are tied together: `Perform` runs
an event on the object and yields exactly `Next` (the gas-wallet handlers ensure `Step`, the
dealer's handler ensures `Handle`). Loops of the source are loops here, proved against a function
on values, and that function carries the theorems.

External results (connections, relayer and database calls, random scalars, clocks) are arbitrary
inputs or arbitrary choices. Each atomic access of the rate limiter is taken in one global order,
so the effects of relaxed memory ordering are not in the model. Each gas-wallet handler is one
step: the find and the mark inside a registration are not in one transaction in the source.
Prices, balances and tolerances are reals.

## Where the code and its documentation differ

The model follows the code.

- The cooldown comment promises a cap of 30 seconds. The shift stops at 16
  (`RateLimiter.CooldownDoublesToSixteen`).
- The limiter's comment says that `acquire` calls block during a cooldown. That holds for calls
  that begin after the deadline was published. A call that has passed the gate is granted inside
  a new cooldown under an exact condition (`RateLimiter.GrantInsideCooldownIff`).
- The comment on `MAX_CONN_RETRIES` says that a 12 second retry cycle gives up after about
  3 minutes. With a 60 second window it never gives up
  (`RetryBudget.DeadSubscriptionsAreRetriedForever`).
- Removing a finished stream is meant to remove that stream. It removes whatever is under the
  pair, under an exact condition (`StreamRegistry.ExitTakesDownAnotherIff`).
- A failed call to move an order back to the global pool is only logged, so the order can stay
  behind. `PoolRunner.StrandedIff` says exactly when.
- The comment on the refill says that a balance within the tolerance of the desired fill is left
  alone, with a default tolerance of 10%. The code leaves alone every balance above 10% of the
  fill (`FundsTransfers.GasFunds.TopUpGasWithTolerance`).
- Removing a stream is documented as cancelling its task. The token is polled only beside a
  supervised connection, so a cancelled task that is retrying goes on
  (`StreamTask.CanExitIff`, `StreamTask.CancelledTaskRetriesForever`).
- The fee indexer's checkpoint is meant to be the most recent block with an event. A chunk takes
  its first block as already seen, so an event there does not move the checkpoint
  (`FeeIndexer.CompletedCheckpoint`); it is handled all the same.
- Unit-pair tasks ignore the cancellation token (`StreamRegistry.UnitTasksNeverStop`).

## Model

| member | source | states |
|---|---|---|
| StreamRegistry.GlobalPriceStreams.constructor | price-reporter/src/price_stream_manager.rs:74-76 | the map starts empty and nothing is cancelled |
| StreamRegistry.GlobalPriceStreams.MaybeAddPriceStream | price-reporter/src/price_stream_manager.rs:80-95 | an existing stream wins and is returned; otherwise the new one is inserted |
| StreamRegistry.GlobalPriceStreams.RemovePriceStream | price-reporter/src/price_stream_manager.rs:98-102 | whatever is under the pair leaves the map and exactly its token is cancelled |
| StreamRegistry.GlobalPriceStreams.SnapshotRemoved | price-reporter/src/price_stream_manager.rs:105-109 | the snapshot holds exactly the keys that are not desired |
| StreamRegistry.GlobalPriceStreams.CancelSnapshot | price-reporter/src/price_stream_manager.rs:111-124 | removing and cancelling one by one equals removing the whole snapshot and cancelling exactly the tokens it maps to |
| StreamRegistry.GlobalPriceStreams.Perform | price-reporter/src/price_stream_manager.rs:80-170 | every event of the protocol, carried out by the lock sections of the map, gives exactly the next state of the protocol |
| StreamRegistry.TraceKeepsInv | price-reporter/src/price_stream_manager.rs:80-170 | every interleaving keeps: the map holds exactly the live tokens, each under its own pair with its task running |
| StreamRegistry.MappedIffLive | price-reporter/src/price_stream_manager.rs:80-170 | a token is in the map iff it was inserted and not yet cancelled |
| StreamRegistry.AtMostOneLiveStream | price-reporter/src/price_stream_manager.rs:128-170 | a pair never has two uncancelled streams, and a live stream always has a running task |
| StreamRegistry.CreateReturnsTheLiveStream | price-reporter/src/price_stream_manager.rs:139-148 | of two racing creators the loser gets the winner's stream, and it is live |
| StreamRegistry.CancelIsForever | price-reporter/src/price_stream_manager.rs:98-124 | a token never changes its pair and a cancelled token stays cancelled in every later state |
| StreamRegistry.CancelPassIsExact | price-reporter/src/price_stream_manager.rs:105-125 | over a whole cancel pass, with anything between its halves, the applying step removes exactly the pairs that were mapped and not desired at the snapshot and cancels exactly the streams it finds under them; every stream undesired at the snapshot ends cancelled |
| StreamRegistry.ExitTakesDownAnotherIff | price-reporter/src/price_stream_manager.rs:161-166 | a finishing task cancels a stream other than its own iff its token was cancelled earlier and the pair exists again |
| StreamRegistry.LateExitCancelsTheNewStream | price-reporter/src/price_stream_manager.rs:161-166 | a run in which that happens, for every non-unit pair |
| StreamRegistry.UnitTasksNeverStop | price-reporter/src/price_stream_manager.rs:179-182 | a unit-pair task keeps running in every later state, cancelled or not |
| ConnectionSupervisor.ManageConnection | price-reporter/src/price_stream_manager.rs:275-400 | the loop's sends, logs and failure are those of the event machine on every schedule |
| ConnectionSupervisor.TraceIsRun | price-reporter/src/price_stream_manager.rs:297-399 | the state that the loop ends in is the last state of the trace |
| ConnectionSupervisor.TraceKeepsInv | price-reporter/src/price_stream_manager.rs:281-295 | every schedule keeps: the next heartbeat is one interval after the last send and under 130 s after the last tick, and the stall flag is the parity of the log |
| ConnectionSupervisor.LastPriceIsLatestTick | price-reporter/src/price_stream_manager.rs:385-388 | the cached price and its time are those of the latest real tick of the schedule |
| ConnectionSupervisor.SendsAreTheLatestTick | price-reporter/src/price_stream_manager.rs:330-392 | every value sent is the latest real tick, and a replay happens only while that tick is under 120 s old |
| ConnectionSupervisor.SendsIff | price-reporter/src/price_stream_manager.rs:327-390 | a step sends iff it is a tick or a heartbeat under 120 s after the latest tick; it sends exactly that tick's price, and the next heartbeat is due exactly 10 s later |
| ConnectionSupervisor.LogsIff | price-reporter/src/price_stream_manager.rs:333-384 | "replaying" is logged iff the step is the first heartbeat since the latest tick that replays it when it is over 30 s old, "resumed" iff the step is a tick after such a replay |
| ConnectionSupervisor.FailsIff | price-reporter/src/price_stream_manager.rs:299-398 | each other failure iff its event: the acknowledgement deadline, only ever before a first tick, a failed keepalive, a stream error, the end of the stream; a keepalive that succeeds is due again exactly 15 s after it was written |
| ConnectionSupervisor.LogsAlternate | price-reporter/src/price_stream_manager.rs:333-384 | "replaying" and "resumed" strictly alternate, "replaying" first |
| ConnectionSupervisor.DeadBefore130Seconds | price-reporter/src/price_stream_manager.rs:310-365 | if no step ends more than the lateness after an armed timer, every step, the failing one included, is over before the latest tick is 130 s old plus lateness; before the first tick within 10 s of the start plus lateness |
| ConnectionSupervisor.StaleAgeIsBounded | price-reporter/src/price_stream_manager.rs:349-362 | the age a stale connection reports lies between 120 s and 130 s plus lateness |
| ConnectionSupervisor.ConsumersStayFresh | price-reporter/src/price_stream_manager.rs:327-390 | likewise, from the first tick on every step ends within one heartbeat plus lateness of the last send |
| ConnectionSupervisor.SendGapsAreBounded | price-reporter/src/price_stream_manager.rs:327-390 | any two consecutive sends of a run are at most one heartbeat plus lateness apart |
| ConnectionSupervisor.StaleIff | price-reporter/src/price_stream_manager.rs:349-362 | a step fails as stale iff it is a heartbeat 120 s or more after the latest tick |
| ConnectionSupervisor.NoFirstTickTakesTheTimeout | price-reporter/src/price_stream_manager.rs:310-326 | a connection is given up for want of a first tick no earlier than 10 s after it was made, whatever else happened |
| RetryBudget.RetryTracker.constructor | price-reporter/src/price_stream_manager.rs:200-200 | a stream task starts with no retries |
| RetryBudget.RetryTracker.RetryConnection | price-reporter/src/price_stream_manager.rs:496-522 | prune, push, then refuse iff 15 or more remain, else report the connect result |
| RetryBudget.RetryTracker.ExhaustRetries | price-reporter/src/price_stream_manager.rs:420-491 | the loop's result and the timestamps it leaves are those of the value-level loop |
| RetryBudget.PruneTwice | price-reporter/src/price_stream_manager.rs:509-510 | pruning at one time and again later is pruning once at the later time |
| RetryBudget.TimestampsAreRecentHistory | price-reporter/src/price_stream_manager.rs:508-513 | the pruned vector is the full retry history cut to the trailing window |
| RetryBudget.RefusedIff | price-reporter/src/price_stream_manager.rs:508-518 | a retry is refused iff it and the 14 before it lie in the trailing 60 s |
| RetryBudget.NoWindowExceedsBudget | price-reporter/src/price_stream_manager.rs:508-521 | no 60 s window, wherever it starts, holds more than 14 reconnects |
| RetryBudget.SlowRetriesNeverExhaust | price-reporter/src/utils/mod.rs:60-69 | gaps with 14·gap ≥ 60 s never exhaust the budget |
| RetryBudget.DeadCycleTakes12Seconds | price-reporter/src/utils/mod.rs:60-69 | a supervised connection that dies at the acknowledgement deadline, with the sleep after it, puts its two retries 12 s or more apart |
| RetryBudget.DeadSubscriptionsAreRetriedForever | price-reporter/src/utils/mod.rs:60-69 | supervisor and budget together: a pair whose connections all die that way is never refused a retry |
| RetryBudget.FastRetriesExhaust | price-reporter/src/utils/mod.rs:50-69 | gaps with 14·gap < 60 s are refused from the 15th retry on |
| RetryBudget.OverBudgetIff | price-reporter/src/price_stream_manager.rs:436-518 | the loop's own test is the test on the whole retry history of the stream |
| RetryBudget.ExhaustEndsAtFirstRefusal | price-reporter/src/price_stream_manager.rs:436-490 | the loop ends at the first refusal or success, and a refusal surfaces the latest underlying error |
| RetryBudget.RateLimitedStreamNeverGivesUp | price-reporter/src/price_stream_manager.rs:438-448 | a stream that is only ever rate limited is retried forever |
| RetryBudget.FastFailuresGiveUp | price-reporter/src/price_stream_manager.rs:465-477 | 15 failures in under 60 s end the loop within those 15, whatever the earlier history, with an underlying error |
| StreamTask.Perform | price-reporter/src/price_stream_manager.rs:173-226 | every event of a stream task, with its retries made through the retry tracker, gives exactly the next state of the task |
| StreamTask.TraceKeepsInv | price-reporter/src/price_stream_manager.rs:200-225 | over every run of a task the stored timestamps are the full retry history pruned, and a sleep ends no earlier than the clock |
| StreamTask.ExitsIff | price-reporter/src/price_stream_manager.rs:204-225 | a task ends at a step iff it notices its cancellation beside a supervised connection or its retry finds 14 others in the trailing 60 s |
| StreamTask.SupervisesIff | price-reporter/src/price_stream_manager.rs:200-221 | a task starts to supervise a connection iff that is the one it just made, at first or by a retry within the budget |
| StreamTask.RetriesAfterTheSleep | price-reporter/src/price_stream_manager.rs:436-451 | after a failure the next retry can start exactly from 10 s on if it was a rate limit and from 2 s on otherwise |
| StreamTask.CanExitIff | price-reporter/src/price_stream_manager.rs:204-225 | when a task can end at its next step: while supervising iff it has been cancelled, while retrying iff the budget will be spent when its sleep is over, cancelled or not, while first connecting never |
| StreamTask.CancelledTaskRetriesForever | price-reporter/src/price_stream_manager.rs:204-225 | a task that is only ever rate limited neither ends nor can end in any state, whenever it is cancelled |
| RateLimiter.CooldownDoublesToSixteen | funds-manager/funds-manager-server/src/custody_client/fireblocks_rate_limiter.rs:222-226 | the cooldown doubles from 1 s per consecutive 429 and stops at 16 s |
| RateLimiter.CooldownFollowsTheStreak | funds-manager/funds-manager-server/src/custody_client/fireblocks_rate_limiter.rs:222-248 | the n-th 429 since the last success, of all callers, stamps a deadline 1, 2, 4, 8 and from the fifth on 16 s ahead |
| RateLimiter.FireblocksLimiter.constructor | funds-manager/funds-manager-server/src/custody_client/fireblocks_rate_limiter.rs:114-123 | a full bucket, no cooldown, all counters zero |
| RateLimiter.FireblocksLimiter.Count429 | funds-manager/funds-manager-server/src/custody_client/fireblocks_rate_limiter.rs:223-226 | counts the 429 and stamps the deadline for that count |
| RateLimiter.FireblocksLimiter.PublishCooldown | funds-manager/funds-manager-server/src/custody_client/fireblocks_rate_limiter.rs:228-231 | the deadline moves to the later of the old and the new one and nothing else changes |
| RateLimiter.FireblocksLimiter.Perform | funds-manager/funds-manager-server/src/custody_client/fireblocks_rate_limiter.rs:125-248 | every event of the protocol, carried out by the atomic accesses of the object, gives exactly the next state of the protocol; so the theorems below hold of the object under every schedule |
| RateLimiter.FireblocksLimiter.PerformCaller | funds-manager/funds-manager-server/src/custody_client/fireblocks_rate_limiter.rs:148-248 | the same for each event of a caller of `acquire`, `on_429` and `on_success`: what the caller read from the object decides its next phase |
| RateLimiter.BucketNeverOverflows | funds-manager/funds-manager-server/src/custody_client/fireblocks_rate_limiter.rs:127-136 | the tokens, with a refill whose capacity test is already behind it, never exceed the capacity |
| RateLimiter.TokensAreConserved | funds-manager/funds-manager-server/src/custody_client/fireblocks_rate_limiter.rs:114-168 | over any stretch of any run tokens plus grants equal tokens before plus refills |
| RateLimiter.GrantsAreBounded | funds-manager/funds-manager-server/src/custody_client/fireblocks_rate_limiter.rs:125-168 | grants in any stretch are at most the capacity plus the refill periods it touches |
| RateLimiter.RefillTickAddsIff | funds-manager/funds-manager-server/src/custody_client/fireblocks_rate_limiter.rs:128-136 | after a tick the refill task adds exactly one token iff the bucket was below capacity, and can tick again exactly from the next grid point on |
| RateLimiter.PeriodsIsDivision | funds-manager/funds-manager-server/src/custody_client/fireblocks_rate_limiter.rs:126-129 | the refill cell of a time is the grid point at or before it |
| RateLimiter.DeadlineAtMost16sAhead | funds-manager/funds-manager-server/src/custody_client/fireblocks_rate_limiter.rs:222-231 | no deadline, published or about to be, is more than 16 s ahead of the clock |
| RateLimiter.DeadlineNeverDecreases | funds-manager/funds-manager-server/src/custody_client/fireblocks_rate_limiter.rs:228-231 | under every interleaving the deadline never decreases |
| RateLimiter.DeadlineIsMaximumPublished | funds-manager/funds-manager-server/src/custody_client/fireblocks_rate_limiter.rs:228-231 | the deadline is the maximum published so far, and absent before the first |
| RateLimiter.AcquireWaitsOutTheCooldown | funds-manager/funds-manager-server/src/custody_client/fireblocks_rate_limiter.rs:148-168 | an acquire that begins after a deadline was published is granted no earlier than it |
| RateLimiter.GrantInsideCooldownIff | funds-manager/funds-manager-server/src/custody_client/fireblocks_rate_limiter.rs:150-168 | a grant falls inside the cooldown in force iff a later deadline was published between the caller's last look at the gate and the grant |
| RateLimiter.EveryGrant | funds-manager/funds-manager-server/src/custody_client/fireblocks_rate_limiter.rs:148-168 | every grant of every run has a beginning and a last look at the gate, comes no earlier than the deadline in force at the former, and falls inside a cooldown iff one lasting beyond it was published from the latter on |
| RateLimiter.GateOpensIff | funds-manager/funds-manager-server/src/custody_client/fireblocks_rate_limiter.rs:150-160 | a caller that tests what it last read goes on to queue iff there was no deadline or it has passed; otherwise it looks again from exactly that deadline on |
| RateLimiter.BeginLooksAtOnce | funds-manager/funds-manager-server/src/custody_client/fireblocks_rate_limiter.rs:148-151 | a caller that begins may look at the gate at once |
| RateLimiter.AcquireOrder | funds-manager/funds-manager-server/src/custody_client/fireblocks_rate_limiter.rs:148-175 | the order of one caller's accesses: look, test, look again or take, count; it counts as throttled and records its wait iff a millisecond or more passed since its beginning; a 429 is always published |
| RateLimiter.GrantInsideCooldownHappens | funds-manager/funds-manager-server/src/custody_client/fireblocks_rate_limiter.rs:150-168 | a run in which a queued caller is granted a token inside a fresh cooldown |
| RateLimiter.SnapshotsAddUp | funds-manager/funds-manager-server/src/custody_client/fireblocks_rate_limiter.rs:170-218 | no acquire is lost or counted twice across snapshots, and over completed snapshots throttled never exceeds acquired |
| RateLimiter.OwingBalance | funds-manager/funds-manager-server/src/custody_client/fireblocks_rate_limiter.rs:170-175 | over any stretch of any run, acquires that waited equal throttled counts up to the callers between their two updates at either end |
| RateLimiter.FirstWindowIsConsistent | funds-manager/funds-manager-server/src/custody_client/fireblocks_rate_limiter.rs:197-218 | the first window reports exactly the counts before its two swaps and never more throttled than acquired calls |
| RateLimiter.WindowShowsMoreThrottledIff | funds-manager/funds-manager-server/src/custody_client/fireblocks_rate_limiter.rs:197-218 | every later window reports exactly the counts between its swaps and the previous ones; it shows more throttled than acquired calls iff the counts caught between the previous swaps, with those owed then, outnumber what this snapshot leaves behind; the excess is at most the former |
| RateLimiter.OneWindowCanShowMoreThrottled | funds-manager/funds-manager-server/src/custody_client/fireblocks_rate_limiter.rs:197-218 | a run in which a window after the first shows more throttled than acquired calls |
| RateLimiter.PeakIsLongestWait | funds-manager/funds-manager-server/src/custody_client/fireblocks_rate_limiter.rs:170-175 | the peak a snapshot takes is the longest wait recorded since the peak was last taken, zero if there was none |
| RateLimiter.RecordedWaitIsReal | funds-manager/funds-manager-server/src/custody_client/fireblocks_rate_limiter.rs:149-174 | a recorded wait is the whole time from the beginning of that acquire to its count, in milliseconds |
| GasWallets.GasWalletTable.AddGasWallet | funds-manager/funds-manager-server/src/custody_client/queries.rs:92-102 | adding a wallet is one creating step of the protocol: it enters inactive, without peer or activation time |
| GasWallets.GasWalletTable.FindLiveGasWalletForPeer | funds-manager/funds-manager-server/src/custody_client/queries.rs:60-75 | finds a live wallet of the peer iff there is one, an active one first |
| GasWallets.GasWalletTable.FindInactiveGasWallet | funds-manager/funds-manager-server/src/custody_client/queries.rs:78-87 | finds an inactive wallet iff there is one |
| GasWallets.GasWalletTable.MarkGasWalletActive | funds-manager/funds-manager-server/src/custody_client/queries.rs:183-229 | status, peer and activation time of exactly that wallet are set |
| GasWallets.GasWalletTable.MarkGasWalletPending | funds-manager/funds-manager-server/src/custody_client/queries.rs:146-180 | only the status of exactly that wallet changes; the peer keeps it |
| GasWallets.GasWalletTable.MarkGasWalletInactive | funds-manager/funds-manager-server/src/custody_client/queries.rs:105-143 | exactly that wallet becomes inactive and loses its peer |
| GasWallets.GasWalletTable.RegisterGasWallet | funds-manager/funds-manager-server/src/custody_client/gas_wallets.rs:99-119 | a registration is one registering step of the protocol |
| GasWallets.GasWalletTable.RecordActiveGasWallets | funds-manager/funds-manager-server/src/custody_client/gas_wallets.rs:131-163 | the row-by-row walk over a snapshot applies the report decision to every wallet at once |
| GasWallets.TraceKeepsInv | funds-manager/funds-manager-server/src/custody_client/gas_wallets.rs:57-163 | every run keeps: inactive iff no peer, every other wallet has an activation time, no peer owns two live wallets |
| GasWallets.RegisterDrawsAtMostOne | funds-manager/funds-manager-server/src/custody_client/gas_wallets.rs:99-119 | a peer with a live wallet gets it back with the pool unchanged, any other takes exactly one from the pool, failure iff it owns none and the pool is empty; no other wallet changes, and an active wallet keeps its activation time |
| GasWallets.OwnedWalletStep | funds-manager/funds-manager-server/src/custody_client/gas_wallets.rs:287-313 | the only ways a handler changes an owned wallet, with the grace period for going pending |
| GasWallets.OwnedSince | funds-manager/funds-manager-server/src/custody_client/queries.rs:212-216 | an active wallet has been exactly as it is since the handler that stamped its activation time |
| GasWallets.PendingSince | funds-manager/funds-manager-server/src/custody_client/gas_wallets.rs:287-313 | a pending wallet went pending at a report that omitted its peer 180 s or more after the activation, and no report came since |
| GasWallets.WalletLostOnlyAfterTwoMisses | funds-manager/funds-manager-server/src/custody_client/gas_wallets.rs:131-163 | a peer loses a wallet only through two consecutive reports without it, the first at least 180 s after its last activation |
| GasWallets.ReissueIsSafe | funds-manager/funds-manager-server/src/custody_client/gas_wallets.rs:99-163 | a wallet issued to one peer and later to another was given up in between in that way |
| GasWallets.ReportedPeerKeepsWallet | funds-manager/funds-manager-server/src/custody_client/gas_wallets.rs:277-313 | a peer that no report omits keeps its wallet |
| GasWallets.MissedActiveWalletIff | funds-manager/funds-manager-server/src/custody_client/gas_wallets.rs:293-307 | a report that omits the peer of an active wallet makes it pending iff 180 s or more have passed since the handler that activated it, and else changes nothing |
| GasWallets.ReportedWalletIsActive | funds-manager/funds-manager-server/src/custody_client/gas_wallets.rs:287-292 | a report with the peer activates its pending wallet at that time and leaves an active one as it is |
| GasWallets.AbsentPeerIsReclaimed | funds-manager/funds-manager-server/src/custody_client/gas_wallets.rs:131-163 | two consecutive reports without a peer, the first 180 s or more after the activation, with no registration of the peer in between, put its wallet back in the pool |
| GasWallets.PoolIsLeftAlone | funds-manager/funds-manager-server/src/custody_client/gas_wallets.rs:57-86 | reports change no wallet of the pool, and a new wallet joins the pool without touching any other |
| FundsTransfers.PassIsAffordable | funds-manager/funds-manager-server/src/custody_client/gas_wallets.rs:184-204 | in either branch a refill pass spends at most the hot wallet's balance |
| FundsTransfers.TargetIff | funds-manager/funds-manager-server/src/custody_client/gas_wallets.rs:186-200 | the target is the fill level if the hot wallet covers a full refill, and else one share of it per wallet uses up the hot wallet |
| FundsTransfers.NeedIsFullRefill | funds-manager/funds-manager-server/src/custody_client/gas_wallets.rs:186-191 | the summed need is what it costs to bring every wallet not above the fill level to exactly that level |
| FundsTransfers.AboveThresholdIff | funds-manager/funds-manager-server/src/custody_client/gas_wallets.rs:232-233 | a balance is above the threshold iff its share of a positive target exceeds the tolerance |
| FundsTransfers.ToleranceIsMonotone | funds-manager/funds-manager-server/src/custody_client/gas_wallets.rs:232-233 | a larger tolerance never skips a wallet that a smaller one tops up |
| FundsTransfers.GasFunds.TransferEther | funds-manager/funds-manager-server/src/custody_client/gas_wallets.rs:254-256 | moves the amount from the hot wallet to one wallet and touches no other |
| FundsTransfers.GasFunds.TopUpGasWithTolerance | funds-manager/funds-manager-server/src/custody_client/gas_wallets.rs:224-257 | for a positive target a wallet is left alone iff its share of the target exceeds the tolerance, and else is brought to exactly the target |
| FundsTransfers.GasFunds.TotalNeed | funds-manager/funds-manager-server/src/custody_client/gas_wallets.rs:186-191 | the loop adds up the shortfalls to the fill level |
| FundsTransfers.GasFunds.ChooseTarget | funds-manager/funds-manager-server/src/custody_client/gas_wallets.rs:195-200 | the even split when the hot wallet cannot cover the need, else the fill level; an empty list of wallets never divides by zero |
| FundsTransfers.GasFunds.TopUpAll | funds-manager/funds-manager-server/src/custody_client/gas_wallets.rs:202-204 | the loop of top-ups overdraws nothing, conserves ether and leaves each wallet at the target or skipped |
| FundsTransfers.GasFunds.RefillGasForWallets | funds-manager/funds-manager-server/src/custody_client/gas_wallets.rs:175-206 | no transfer overdraws, ether is conserved, and for a positive target a wallet is left alone iff its share of the target exceeds the tolerance and else ends at exactly the target |
| FundsTransfers.RoundUpIsLeast | funds-manager/funds-manager-server/src/helpers.rs:512-522 | rounding gives the least multiple of 10^-6 that covers a nonnegative amount, and moves a negative one away from zero by less than a unit |
| FundsTransfers.RoundUpFixesGrid | funds-manager/funds-manager-server/src/helpers.rs:512-522 | an amount of whole base units is left as it is |
| FundsTransfers.HyperliquidFunds.WithdrawToHyperliquid | funds-manager/funds-manager-server/src/custody_client/withdraw.rs:182-225 | result and balances are those of the withdrawal on values |
| FundsTransfers.WithdrawCases | funds-manager/funds-manager-server/src/custody_client/withdraw.rs:182-225 | every case of a withdrawal with its result and balances: no top-up for a vault that covers the amount, else a top-up of what the rounded amount lacks, rounded again, or a refusal |
| FundsTransfers.BridgeOverdrawsIff | funds-manager/funds-manager-server/src/custody_client/withdraw.rs:196-224 | the bridge overdraws iff the vault covers the amount but not the rounded amount, never with a vault of whole base units |
| FundsTransfers.FractionalVaultIsOverdrawn | funds-manager/funds-manager-server/src/custody_client/withdraw.rs:196-224 | a vault with a fraction of a base unit that the bridge overdraws |
| FundsTransfers.TopUpIsTight | funds-manager/funds-manager-server/src/custody_client/withdraw.rs:199-219 | a top-up is the rounded amount minus the available one, empties the vault, and exceeds the shortfall by less than 10^-6 |
| FundsTransfers.WithdrawConserves | funds-manager/funds-manager-server/src/custody_client/withdraw.rs:182-225 | USDC is conserved, a refusal moves nothing, and the bridge gets the rounded amount |
| FundsTransfers.VaultNeverOverdrawn | funds-manager/funds-manager-server/src/custody_client/withdraw.rs:182-225 | over any list of withdrawals a vault of whole base units keeps whole base units, is never overdrawn by the bridge, and USDC is conserved |
| FeeIndexer.ChunksTile | funds-manager/funds-manager-server/src/fee_indexer/index_fees.rs:58-68 | the chunks tile the block range with no gap and no overlap |
| FeeIndexer.Indexer.HandleNote | funds-manager/funds-manager-server/src/fee_indexer/index_fees.rs:115-162 | handling an event inserts its fee if it is ours and unspent as this attempt finds it, once per transaction |
| FeeIndexer.Indexer.IndexFeesFromBlockRange | funds-manager/funds-manager-server/src/fee_indexer/index_fees.rs:74-112 | stopped after any number of writes, a chunk has done exactly that prefix of its effects |
| FeeIndexer.Indexer.IndexFees | funds-manager/funds-manager-server/src/fee_indexer/index_fees.rs:47-71 | the same for a whole attempt, and when it counts as completed |
| FeeIndexer.ChunkPrefixIsSafe | funds-manager/funds-manager-server/src/fee_indexer/index_fees.rs:97-109 | every prefix of a chunk keeps all events below the checkpoint handled, and the whole chunk handles its range |
| FeeIndexer.AttemptIsSafe | funds-manager/funds-manager-server/src/fee_indexer/index_fees.rs:47-112 | an attempt stopped anywhere keeps that, and a completed one has handled every event up to its block |
| FeeIndexer.ScheduleIsSafe | funds-manager/funds-manager-server/src/fee_indexer/index_fees.rs:47-112 | over every schedule of crashes and restarts, with notes being spent in between, the checkpoint never decreases, every event below it is handled, every handled note of ours still unspent is in the fee table, and whatever the table gained was ours and unspent in some attempt |
| FeeIndexer.CompletedAttemptCovers | funds-manager/funds-manager-server/src/fee_indexer/index_fees.rs:47-71 | what a completed attempt covered stays handled through any later schedule |
| FeeIndexer.CompletedCheckpoint | funds-manager/funds-manager-server/src/fee_indexer/index_fees.rs:58-109 | a completed attempt leaves the checkpoint at the latest event in its range that is not a whole number of chunks after its start, or where it was if there is none |
| FeeIndexer.FirstBlockOfChunkIsNotCheckpointed | funds-manager/funds-manager-server/src/fee_indexer/index_fees.rs:96-107 | an event in the first block of a later chunk is handled and does not move the checkpoint |
| PrimeField.NonzeroHasInverse | dealer/renegade-dealer/src/dealer.rs:220-221 | modulo a prime every nonzero value has an inverse; every dealt inverse comes from it |
| Dealer.GenSecretShares | dealer/renegade-dealer/src/dealer.rs:275-286 | for every random choice the two shares add up to each value |
| Dealer.CollectShares | dealer/renegade-dealer/src/dealer.rs:289-296 | pairs values with macs position by position, as many as both have |
| Dealer.GenAuthenticatedSecretShares | dealer/renegade-dealer/src/dealer.rs:257-272 | the shares open to the values and their mac shares to value times key |
| Dealer.ViewHidesValues | dealer/renegade-dealer/src/dealer.rs:257-296 | all shares and mac shares that one party sees are consistent with every choice of values and key, through exactly one choice of the other party's shares |
| Dealer.GenRandomBits | dealer/renegade-dealer/src/dealer.rs:165-177 | the requested number of authentic bits, every other field untouched |
| Dealer.GenRandomValues | dealer/renegade-dealer/src/dealer.rs:180-192 | the requested number of authentic values, every other field untouched |
| Dealer.GenInputMasks | dealer/renegade-dealer/src/dealer.rs:195-210 | each party's cleartext masks open from its own shares and the counterparty's third component |
| Dealer.InvertAll | dealer/renegade-dealer/src/dealer.rs:221-221 | whatever nonzero values were drawn, each gets its inverse |
| Dealer.GenInversePairs | dealer/renegade-dealer/src/dealer.rs:213-228 | any nonzero draw is dealt: the first shares open to exactly that draw, the second to its inverses, all authentic |
| Dealer.GenTriples | dealer/renegade-dealer/src/dealer.rs:233-250 | the triples satisfy a·b = c under authentic shares |
| Dealer.HandleReadyPair | dealer/renegade-dealer/src/dealer.rs:135-156 | for every request and every random choice (nonzero where an inverse is needed) the two responses carry all of the above under the sum of the key shares |
| DealerPairing.DealerQueue.constructor | dealer/renegade-dealer/src/dealer.rs:95-95 | nothing is open, answered or poisoned |
| DealerPairing.DealerQueue.HandleRequest | dealer/renegade-dealer/src/dealer.rs:113-132 | one job under the lock does what the handler on values does |
| DealerPairing.RunKeepsInv | dealer/renegade-dealer/src/dealer.rs:113-132 | while bodies match, every id and every job is accounted for exactly: open with its last job, or answered as its pair |
| DealerPairing.OpenIffOdd | dealer/renegade-dealer/src/dealer.rs:113-132 | while bodies match, an id is open iff an odd number of its jobs were handled, and answered plus open is handled |
| DealerPairing.AnsweredIffPaired | dealer/renegade-dealer/src/dealer.rs:117-128 | while bodies match, a job is answered iff both of its pair were handled; the answers name each other and succeed iff the parties differ |
| DealerPairing.AnswersAreOfPairs | dealer/renegade-dealer/src/dealer.rs:117-128 | while bodies match, every answer belongs to two consecutive jobs of one id |
| DealerPairing.AnsweredAtMostOnce | dealer/renegade-dealer/src/dealer.rs:121-128 | in every run, an answer is never sent again or changed |
| DealerPairing.PoisonedIffMismatch | dealer/renegade-dealer/src/dealer.rs:116-118 | the lock is poisoned iff some pair handled so far carries different bodies |
| DealerPairing.FirstMismatchFreezes | dealer/renegade-dealer/src/dealer.rs:113-118 | from the first mismatched pair on, that pair stays unanswered and the state never changes again, so no later job is answered |
| PoolRunner.SelectManagedPool | pool-runner/src/server/runner.rs:31-41 | the first eligible pool, or none iff no pool is eligible |
| PoolRunner.PreFilterIsExact | pool-runner/src/server/runner.rs:212-214 | some value routes a ticker iff a pool with a non-empty value band lists it; the pre-filter drops no routable ticker, and exactly the unroutable ones when all bands are non-empty |
| PoolRunner.FillWaiterRegistry.constructor | pool-runner/src/fill_waiter.rs:19-21 | no waiters and no channels |
| PoolRunner.FillWaiterRegistry.Perform | pool-runner/src/server/runner.rs:137-207 | every event of the protocol, carried out by the operations of the registry, gives exactly the next state of the protocol, channels included |
| PoolRunner.FinishedOrdersAreGlobal | pool-runner/src/server/runner.rs:137-207 | with any number of interleaved tasks on an order, once all have finished and the last relayer call succeeded, the order is in the global pool |
| PoolRunner.StrandedIff | pool-runner/src/server/runner.rs:176-188 | a finished order is left in a managed pool iff the task that last moved it there failed to move it back and no later call about it succeeded |
| PoolRunner.PoolIsLastCall | pool-runner/src/server/runner.rs:137-188 | an order is in a managed pool iff the last successful call about it assigned it, and then in the pool that call's task was started for |
| PoolRunner.FailedReassignStrandsTheOrder | pool-runner/src/server/runner.rs:176-188 | a failed reassign call can leave a finished order in the managed pool |
| PoolRunner.NoWaiterRemains | pool-runner/src/server/runner.rs:158-206 | once the tasks of an order have finished no waiter for it remains |
| PoolRunner.ChannelResolvesOnce | pool-runner/src/fill_waiter.rs:24-44 | each channel resolves at most once |
| PoolRunner.ResultsMatchChannels | pool-runner/src/server/runner.rs:166-206 | what a task returns agrees with its channel: Ok iff it could read a fill, closed only on a closed channel, a timeout never on a filled one |
| PoolRunner.ChannelIsFirstTouch | pool-runner/src/fill_waiter.rs:24-44 | while a task listens its channel is filled iff the first touch since it registered is a fill, closed iff that touch is another task on its order, and else it is the registered waiter |
| PoolRunner.ResultIsFirstTouch | pool-runner/src/server/runner.rs:166-206 | a task waits exactly once, and its result is decided by the first touch between registration and the end of the wait |
| PoolRunner.OutcomeIff | pool-runner/src/server/runner.rs:190-206 | a finished task whose assignment went through returns Ok iff its first touch before the wait ended is a fill, a closed channel iff it is another task on its order, a timeout iff there is none |
| PoolRunner.WakeupIsNotLost | pool-runner/src/server/runner.rs:144-206 | a fill handled while a task listens makes it succeed if no other task on its own order came or went between its registration and the fill; other orders do not matter |
| PoolRunner.OkMeansNotified | pool-runner/src/server/runner.rs:190-197 | a task returns Ok only if a fill of its order was handled while it listened |
| PoolRunner.ClosedMeansInterference | pool-runner/src/server/runner.rs:198-201 | the first event that touched a task with a closed channel was another task on the same order |
| PoolRunner.SecondTaskClosesTheFirst | pool-runner/src/fill_waiter.rs:26-26 | a run in which a second task on the order makes the first one fail |
| StringifiedJson.JsonNumberIsNumeric | auth/auth-server/src/http_utils/stringify_formatter.rs:198-231 | every JSON number of section 6 of RFC 8259 is accepted as a float |
| StringifiedJson.IsNumericIff | auth/auth-server/src/http_utils/stringify_formatter.rs:229-231 | a string is taken for numeric iff it is an optional sign and then inf, infinity or nan in any case, or digits with an optional fraction, at least one digit in all, and an optional exponent |
| StringifiedJson.IsJsonNumberIff | auth/auth-server/src/http_utils/stringify_formatter.rs:201-201 | a string is a JSON number iff it is an optional minus, digits without a leading zero, an optional fraction with a digit and an optional exponent |
| StringifiedJson.OrdinaryTextIsKept | auth/auth-server/src/http_utils/stringify_formatter.rs:198-204 | a string with a character that occurs in no number is returned as it is |
| StringifiedJson.StringifiedHasNoNumbers | auth/auth-server/src/http_utils/stringify_formatter.rs:40-164 | the stringified tree holds no number at any depth |
| StringifiedJson.FormatterWritesStringified | auth/auth-server/src/http_utils/stringify_formatter.rs:25-164 | the stringifying formatter writes the compact text of the tree whose numbers are strings |
| StringifiedJson.ConvertStringifiedNumbers | auth/auth-server/src/http_utils/stringify_formatter.rs:191-224 | the child-by-child rewrite equals the conversion on values, errors included |
| StringifiedJson.RoundTripIff | auth/auth-server/src/http_utils/stringify_formatter.rs:25-242 | converting the stringified tree gives the original iff no number sits directly under "price" and no convertible string looks numeric |
| StringifiedJson.ConvertIsIdempotent | auth/auth-server/src/http_utils/stringify_formatter.rs:191-224 | a second conversion changes nothing |
| StringifiedJson.ConvertFailsIff | auth/auth-server/src/http_utils/stringify_formatter.rs:198-204 | the conversion fails iff some convertible string is a float and not a JSON number |
| StringifiedJson.LeadingPlusFails | auth/auth-server/src/http_utils/stringify_formatter.rs:198-204 | the string "+1" is such a string |
| JsonText.TextReadsBack | auth/auth-server/src/http_utils/stringify_formatter.rs:25-37 | an independent reader of compact JSON reads the plain text back to the tree and the stringified text to the stringified tree, so the text determines the tree |
| JsonText.CodecRoundTripIff | auth/auth-server/src/http_utils/stringify_formatter.rs:25-188 | deserializing the serialized text gives every value back without stringification, and with it iff no number sits directly under "price" and no convertible string looks numeric |

## Left out

- HTTP and websocket servers, routes, CLI, logging, metrics, and the AWS, Fireblocks, RPC and database clients: plumbing whose results are inputs here.
- Exchange message parsing, pair support checks and the auth server's caches: thin wrappers over remote formats and stores.
- UniswapX solving, the prover service, signatures and encryption: they rest on code that is not part of this model.
- Floating-point rounding, NaN and infinity in balances and prices: the arithmetic is over the reals.
- ConnectionSupervisor.ManageConnection: does not model the wall-clock tick gauge, which only feeds a metric.
- ConnectionSupervisor.DeadBefore130Seconds: timers and a blocked keepalive write have no bound of their own in the source, so how late a step may end after an armed timer is a parameter, here and in the other members on freshness.
- RetryBudget.RetryTracker.ExhaustRetries: does not model the logged attempt count, which can go below zero, and stops at the end of a finite list of attempts where the source goes on.
- RateLimiter.FireblocksLimiter.Count429: the count is unbounded, where a full `u32` would wrap.
- Which queued caller the semaphore serves first, and the few milliseconds by which a refill tick may be late without counting as missed.
- GasWallets.GasWalletTable.RegisterGasWallet: the find and the mark are one step, and the key lookup and refill after them are left out; two overlapping registrations are not modelled.
- GasWallets.TraceKeepsInv: does not cover the manual status endpoint, which can set any status, or a clock that goes back.
- FundsTransfers.GasFunds.RefillGasForWallets: does not model gas paid for transfers, a negative fill amount or a tolerance outside [0, 1].
- FundsTransfers.HyperliquidFunds.WithdrawToHyperliquid: failed lookups and failed transfers stop the source earlier and are not modelled.
- Dealer.NonzeroScalars: a random zero, on which the source panics, is never drawn.
- Dealer.HandleReadyPair: that the BN254 group order is prime is a hypothesis of it, of `Dealer.GenInversePairs` and of `Dealer.InvertAll`, not proved.
- DealerPairing.DealerQueue.HandleRequest: receivers that hang up, on which the source panics, are not modelled.
- PoolRunner.SelectManagedPool: the ticker and the USD value of an order are inputs.
- StringifiedJson.ConvertStringifiedNumbers: builds a new tree, so the half-converted tree that an error leaves behind, and that no caller reads, is not captured.
- StringifiedJson.FormatterWritesStringified: covers numbers serialized as typed integers and floats; a number that is already held as text inside a JSON value goes through a formatter method that the source does not override, and would come out unquoted.
- JsonText.CodecRoundTripIff: the reader stands for the external JSON parser on compact text; white space, surrogate escapes, duplicate or reordered keys, and maps with numeric keys, which the formatter would quote twice, are not modelled.
- FeeIndexer.ScheduleIsSafe: a note once spent stays spent, and the events are a fixed list in block order, so chain reorganisations and incomplete log queries are not modelled; an error inside an attempt stops it like a crash does. The fee indexer's module is commented out of the server's main file at this commit.
