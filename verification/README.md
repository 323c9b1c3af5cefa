# Nonces, leases, logs and limits: a verified model of the transaction spammer's shared state

This project models the parts of the spammer that keep state shared between tasks, and
the exact integer arithmetic around them, and proves what they guarantee. Dafny checks
everything: `dafny verify dfyconfig.toml`. Nothing here executes the original program.

Code that updates fields in place is a class whose methods are proved against functions
on values (`View()` gives the value of an object). Runs, interleavings and traces are
defined over those same functions, and the main theorems are about every run. The clock,
random picks, RPC answers, proxy health, client creation and database failures are inputs.

| file | what it holds |
|---|---|
| `NonceModel`, `NonceEffects`, `NonceManager` | the robust nonce manager: one wallet's state and operations as functions, what they do nonce by nonce, and the objects that perform them |
| `NonceRuns`, `NonceTracking`, `NonceLifecycle` | whole runs of any number of wallets and reservation handles: exclusive issue, agreement of the tracking structures, conservation, recovery, what recorded states say about the past |
| `NonceObservable` | exclusivity and its discipline are exactly what callers can observe |
| `NonceRaces` | the nonce counters at the grain of single atomic accesses |
| `LockSystem`, `NonceLocks` | first-in-first-out locks, the lock scopes of the manager's operations, deadlock freedom, its one exception and what that takes with it |
| `PoolModel`, `ClientPool`, `PoolInterleaving`, `PoolObservable` | the wallet pool's swap-remove index, its acquisition paths, all interleavings of its critical sections, and what callers can observe of them |
| `LogModel`, `LogWorker`, `LogSelect`, `QueryTimer`, `QueryTimerRaces` | the asynchronous task log, its select loop, and the truncating query-time average, alone and shared |
| `RateLimiter`, `RateLimiterRaces`, `CircuitBreaker`, `CircuitBreakerRaces` | token buckets, back-off, the breaker, alone and shared |
| `RandomShares`, `UniswapV2`, `TokenFormat` | share repair, the pair swap amount, amount printing |
| `Basics` | shared helpers |

Where a promise of the code or its comments does not hold, the model follows the code, a
lemma gives a concrete run or input, and another states exactly when it does hold:

- `release()` on a nonce reservation also runs its drop handler, so the nonce is returned
  twice and can end up with two holders (`DoubleReleaseSharesANonce`). `initialize` is
  documented to act only on a higher value, but lowers the counter when the value lies
  between the confirmed and the cached nonce (`RewindReissuesASubmittedNonce`).
  `DisciplineIsExact` says, operation by operation, when exclusivity survives, and
  `AllowedIffNeverBreaks` that nothing weaker would do.
- A nonce reported as too low is commented as dead and not recycled. It can be handed out
  again if and only if it was queued or held when the error was handled
  (`DeadNonceReturnsIff`); dropping its handle is enough (`DeadNonceReturns`).
- `confirm_nonce` on a multiple of ten locks `requests` while holding it and never
  returns (`AllCanFinishIffNoConfirmOfTen`). It blocks its wallet
  (`ConfirmOfTenBlocksTheWallet`) and, once anybody waits to write the map of wallets,
  every operation on every wallet (`ManagerFreezes`). The run theorems still cover
  clean-up as a step.
- The check and the store in `handle_nonce_error` are separate, and so are those in
  `initialize`: either can hand a nonce out twice although it was moving the counter up
  when it checked (`CorrectionCanReissue`, `InitializeCanReissue`). `StepIsSafeIffCalm` is
  exact; a store that never lowers the counter as it stands, such as an atomic maximum,
  would be safe in every interleaving (`UpwardRunsAreSafe`).
- `release()` on a client lease unlocks the wallet twice, and one wallet can be leased
  twice (`DoubleReleaseLeasesTwice`). `StepKeepsOneHolder` is exact for the holder count,
  and `HarmlessIffNeverDoubled` says that an act is harmless if and only if no harmless
  continuation ever shows two live leases of one wallet.
- The log worker is to stop when its channel closes; it never does, because one arm of its
  loop takes any value (`WorkerNeverStops`, `CanStopIffRefutable`). Shutdown waits for it
  for at most five seconds (core-logic/src/database.rs:408) and then closes the database.
- The token bucket is called thread-safe; two overlapping refills of a bare shared bucket
  credit the same time twice (`OverlappingRefillsExceedRate`). No time is credited twice
  if and only if every refill that goes through had loaded the latest credited time
  (`TimePaidOnceIffFresh`). `acquire` holds the global bucket's mutex around both of its
  `try_acquire` calls (core-logic/src/utils/rate_limiter.rs:173-177), so that run cannot be
  reached through it, and the rate holds (`LockedBucketKeepsRate`).
- Waiting `1000 / tps` ms between polls starves whenever tps does not divide 1000
  (`WaitStarves`, `EmptyBucketStarves`). A sleep lasts at least that long, and one
  millisecond more yields a token (`PollGrantsIff`). The clock the code reads is the age
  of an instant created on the spot, so in practice it stands still; that case is
  `FastPollsNeverRefill` with a spacing of 0: the bucket is never refilled.
- The first half-open success always closes the breaker if and only if the success
  threshold is not above the failure threshold, as in the default configuration
  (`FirstSuccessClosesIff`). When calls overlap, a success that comes in after the breaker
  opened resets its count and disarms it (`LateSuccessDisarms`, `LateSuccessHappens`); with
  an admission and a completion as one step each, the count tells the truth all along if
  and only if there is no such success (`AlwaysRightIffNoneLate`). Between single accesses
  a success that came in while the breaker was closed can disarm it as well
  (`ClosedSuccessDisarms`); no interleaving of n calls on a new breaker does so if and only
  if n is not above the failure threshold (`NeverDisarmedIffFewCalls`).
- The query-time average is shared without a lock. It never exceeds the largest sample
  (`NeverAboveLargest`), and once an average is stored every later query keeps it at or
  above the smallest (`NeverBelowSmallest`). But n overlapping first queries can leave one
  n-th of what each took (`ShareIsReached`), and never less (`NeverBelowShare`); on a fresh
  timer the smallest sample is a lower bound if and only if there is one query
  (`AboveSmallestIffAlone`).
- Random shares need not add up to the total (`NeedNotAddUp`, `AddsUpIff`). For two or more
  shares they always do if and only if there are two and at least two units to share
  (`EveryProposalAddsUpIff`).

## Model

| member | source | states |
|---|---|---|
| `NonceRuns.ExclusiveIssue` | chains/tempo-spammer/src/robust_nonce_manager.rs:235-342 | in every disciplined run, over any wallets and handles, no two open handles share a nonce, none holds a submitted one, and the next nonce handed out is neither held nor submitted |
| `NonceRuns.DisciplineIsExact` | chains/tempo-spammer/src/robust_nonce_manager.rs:235-511 | for each operation, exclusivity is kept if and only if the stated caller condition holds (counter not rewound under a nonce in play, nothing taken put back, no wrap of the 64-bit counter) |
| `NonceRuns.SubmittedGrows` | chains/tempo-spammer/src/robust_nonce_manager.rs:322-342 | a submission is remembered by every continuation, so exclusive issue speaks about the whole past |
| `NonceRuns.DoubleReleaseSharesANonce` | chains/tempo-spammer/src/robust_nonce_manager.rs:176-204 | a concrete run in which the two releases of one handle put nonce 5 into two hands |
| `NonceRuns.RewindReissuesASubmittedNonce` | chains/tempo-spammer/src/robust_nonce_manager.rs:295-317 | a concrete run in which a second initialize reissues a submitted nonce |
| `NonceRuns.RecycledQueue` | chains/tempo-spammer/src/robust_nonce_manager.rs:396-406 | recycling a failed nonce adds it at most once, keeps the queue duplicate-free, and loses it only to a zero cap |
| `NonceTracking.StructuresAgree` | chains/tempo-spammer/src/robust_nonce_manager.rs:235-511 | in every disciplined run without clean-up, in-flight is exactly the InFlight requests, the queue is duplicate-free and disjoint from the tracked nonces, and all of them lie below the counter |
| `NonceTracking.NonceConservation` | chains/tempo-spammer/src/robust_nonce_manager.rs:235-373 | after initialize(c0), every nonce from c0 to the counter is in exactly one of reserved, queued, in flight, confirmed; the sizes add up, and tracked + queued equals the nonces handed out |
| `NonceTracking.Recovery` | chains/tempo-spammer/src/robust_nonce_manager.rs:439-511 | after a nonce error in any run, whatever next nonce is reported: the attempted nonce, if tracked, is Failed and it is out of flight, confirmed is one less than the report, and nothing else changes unless the report is above the counter, when every lower tracked nonce is Failed and none in flight; later fresh nonces start at the larger of counter and report and strictly rise, any lower one handed out later was queued or held at the error, and a submitted one out of flight never flies again |
| `NonceEffects.NonceErrorEffect` | chains/tempo-spammer/src/robust_nonce_manager.rs:439-511 | for every wallet and every reported next nonce, which nonces become Failed, leave flight or stay as they are, and both counters |
| `NonceEffects.NonceErrorQueue` | chains/tempo-spammer/src/robust_nonce_manager.rs:469-499 | after an error above the counter the queue keeps its order and loses one occurrence of each stale nonce |
| `NonceEffects.ConfirmEffect` | chains/tempo-spammer/src/robust_nonce_manager.rs:347-373 | the confirmed nonce is Confirmed under its id and out of flight, the confirmed counter is the larger of both, and on multiples of ten exactly the requests more than 50 below it are forgotten |
| `NonceEffects.FailEffect` | chains/tempo-spammer/src/robust_nonce_manager.rs:378-413 | a failed nonce is Failed and out of flight; recycled, it is queued last unless queued already, and the oldest go when the queue is full |
| `NonceEffects.ReleaseEffect` | chains/tempo-spammer/src/robust_nonce_manager.rs:418-431 | a released nonce is untracked and queued last, unless queued already, and nothing else changes |
| `NonceTracking.GivenBackGoesLast` | chains/tempo-spammer/src/robust_nonce_manager.rs:418-431 | reservations after a release or a drop hand out the queue in order and the given-back nonce after it |
| `NonceLifecycle.StatesTellHistory` | chains/tempo-spammer/src/robust_nonce_manager.rs:235-373 | after initialize and any everyday run confirming only submitted nonces: Reserved are exactly the nonces of the open handles, each under its handle's id, InFlight the submitted and unconfirmed, Confirmed the confirmed ones; the confirmed counter is the highest of these or one less than the start; there are as many Reserved as open handles |
| `NonceLifecycle.CleanupAgreesIff` | chains/tempo-spammer/src/robust_nonce_manager.rs:566-575 | clean-up keeps the four structures in agreement if and only if no tracked nonce lies more than 50 below the confirmed counter |
| `NonceTracking.RecoveryInvalidates` | chains/tempo-spammer/src/robust_nonce_manager.rs:455-510 | what the bulk invalidation changes and what it leaves alone, request by request |
| `NonceTracking.FreshIncrease` | chains/tempo-spammer/src/robust_nonce_manager.rs:245-254 | while the counter is not rewound, fresh nonces strictly increase along every run |
| `NonceTracking.LowNoncesWereRecyclable` | chains/tempo-spammer/src/robust_nonce_manager.rs:240-244 | a nonce handed out below the counter was queued or held when the run began |
| `NonceTracking.ReissuableIff` | chains/tempo-spammer/src/robust_nonce_manager.rs:240-255 | some run that neither rewinds the counter nor puts anything back behind a holder's back hands out a nonce below the counter, if and only if it is queued or held now |
| `NonceTracking.DeadNonceReturnsIff` | chains/tempo-spammer/src/robust_nonce_manager.rs:439-511 | after an error on a too low nonce, whatever the chain's next one, that nonce can be handed out again if and only if it was queued or held before |
| `NonceTracking.DeadNonceReturns` | chains/tempo-spammer/src/robust_nonce_manager.rs:450-452 | if its handle is open when the error is handled and is then dropped, some number of reservations hands the dead nonce out again |
| `NonceObservable.ExclusiveIffNeverBreaks` | chains/tempo-spammer/src/robust_nonce_manager.rs:235-511 | a state is exclusive if and only if no disciplined continuation gives two handles one nonce, or a handle a submitted one, or offers a taken one next |
| `NonceObservable.AllowedIffNeverBreaks` | chains/tempo-spammer/src/robust_nonce_manager.rs:235-511 | an operation in an exclusive state meets the caller condition if and only if no disciplined continuation after it ever breaks |
| `NonceModel.WithoutOneFirst` | chains/tempo-spammer/src/robust_nonce_manager.rs:491-494 | striking stale nonces from the queue gives the same queue in whatever order they are visited |
| `NonceManager.WalletNonceState.Take` | chains/tempo-spammer/src/robust_nonce_manager.rs:239-272 | pops the queue, else takes and increments the counter, else nothing; tracks the reservation |
| `NonceManager.WalletNonceState.Fail` | chains/tempo-spammer/src/robust_nonce_manager.rs:378-413 | the new state with and without recycling, including the cap loop |
| `NonceManager.WalletNonceState.Invalidate` | chains/tempo-spammer/src/robust_nonce_manager.rs:469-499 | the loop over the stale nonces, in any order, reaches the one result |
| `NonceManager.WalletNonceState.Recover` | chains/tempo-spammer/src/robust_nonce_manager.rs:439-511 | the whole new wallet state after a nonce error |
| `NonceManager.WalletNonceState.Confirm` | chains/tempo-spammer/src/robust_nonce_manager.rs:347-373 | the whole new wallet state a confirmation is written to reach, with the clean-up on multiples of ten |
| `NonceManager.WalletNonceState.CountInState` | chains/tempo-spammer/src/robust_nonce_manager.rs:534-546 | the loop counts exactly the requests in one state |
| `NonceManager.RobustNonceManager.ReserveNonce` | chains/tempo-spammer/src/robust_nonce_manager.rs:235-286 | hands out the next nonce of that wallet under a fresh request id, or none if uninitialised; other wallets are untouched |
| `NonceManager.RobustNonceManager.InitializeNonce` | chains/tempo-spammer/src/robust_nonce_manager.rs:295-317 | creates or synchronises one wallet and touches no other |
| `NonceManager.RobustNonceManager.MarkSubmittedNonce` | chains/tempo-spammer/src/robust_nonce_manager.rs:322-342 | moves the nonce in flight in a known wallet, ignores an unknown one |
| `NonceManager.RobustNonceManager.ReleaseNonce` | chains/tempo-spammer/src/robust_nonce_manager.rs:418-431 | untracks and queues the nonce once, in that wallet only |
| `NonceManager.RobustNonceManager.GetStats` | chains/tempo-spammer/src/robust_nonce_manager.rs:525-556 | the statistics are those of the wallet's structures, none for an unknown wallet |
| `NonceRaces.StepIsSafeIffCalm` | chains/tempo-spammer/src/robust_nonce_manager.rs:240-311 | every atomic access of reservations, corrections and initialize keeps nonces exclusive, except exactly a store that pulls the counter under a nonce in play and a bump that wraps it |
| `NonceRaces.UpwardRunsAreSafe` | chains/tempo-spammer/src/robust_nonce_manager.rs:298-462 | in every interleaving in which no store lowers the counter as it stands, and no bump wraps it, no nonce is ever in two places |
| `NonceRaces.UnseparatedStoreIsUpward` | chains/tempo-spammer/src/robust_nonce_manager.rs:455-462 | a correction stores upwards if the counter still is what it read; initialize does so then exactly unless its target lies strictly between the confirmed and the cached nonce |
| `NonceRaces.ConcurrentReservationsAreExclusive` | chains/tempo-spammer/src/robust_nonce_manager.rs:240-255 | any number of tasks reserving, sending and giving back in any interleaving never share a nonce |
| `NonceRaces.AloneReserves` | chains/tempo-spammer/src/robust_nonce_manager.rs:240-255 | the accesses of a reservation nobody interrupts take the nonce the sequential operation takes and leave counter and queue as it does |
| `NonceRaces.AloneSynchronises` | chains/tempo-spammer/src/robust_nonce_manager.rs:295-317 | likewise for a correction and an initialize with both counters |
| `NonceRaces.CorrectionCanReissue` | chains/tempo-spammer/src/robust_nonce_manager.rs:455-462 | an interleaving of one correction and three reservations that hands out nonce 6 twice |
| `NonceRaces.InitializeCanReissue` | chains/tempo-spammer/src/robust_nonce_manager.rs:298-306 | the same with an initialize that was moving the counter up when it read it |
| `LockSystem.SomebodyCanStep` | chains/tempo-spammer/src/robust_nonce_manager.rs:322-467 | if all tasks take fair locks in rising order, somebody unfinished can always step |
| `NonceLocks.DeadlockFree` | chains/tempo-spammer/src/robust_nonce_manager.rs:235-596 | after any schedule of any tasks, each performing any list of operations without a multiple-of-ten confirmation, all are finished or one can step, and schedules are bounded by the work |
| `LockSystem.LocksExclude` | chains/tempo-spammer/src/robust_nonce_manager.rs:235-596 | no schedule lets a task hold a lock in any mode while another holds it exclusively |
| `NonceLocks.TakesWhatItTouches` | chains/tempo-spammer/src/robust_nonce_manager.rs:235-596 | every operation, on every branch, takes the lock of each structure it touches, exclusively, and no other, and locks the map of wallets to read or, where it adds or removes a wallet, to write |
| `NonceLocks.NestedIsOrdered` | chains/tempo-spammer/src/robust_nonce_manager.rs:455-467 | lock scopes nested in rising order request only above what they hold and give everything back |
| `NonceLocks.NestsIffNotRelocking` | chains/tempo-spammer/src/robust_nonce_manager.rs:235-596 | every operation, on every branch, nests its locks in order, except exactly the confirmation of a multiple of ten |
| `NonceLocks.AllCanFinishIffNoConfirmOfTen` | chains/tempo-spammer/src/robust_nonce_manager.rs:366-369 | some schedule finishes all tasks if and only if none of them confirms a multiple of ten in a known wallet |
| `NonceLocks.ConfirmOfTenNeverFinishes` | chains/tempo-spammer/src/robust_nonce_manager.rs:347-373 | a task with such a confirmation among its operations is unfinished after every schedule, whatever else runs |
| `NonceLocks.ConfirmOfTenBlocksTheWallet` | chains/tempo-spammer/src/robust_nonce_manager.rs:347-373 | from any start and after any schedule: once that confirmation holds `requests`, no other task that has yet to take that lock ever finishes |
| `NonceLocks.ManagerFreezes` | chains/tempo-spammer/src/robust_nonce_manager.rs:559-596 | from any start and after any schedule: while that confirmation holds the map of wallets and some task waits to write it, no task with an operation yet to begin ever finishes, on any wallet, unless it is in line before the writer |
| `NonceLocks.FreezeHappens` | chains/tempo-spammer/src/robust_nonce_manager.rs:347-373 | three steps of any such confirmation and a reset get there, whatever the third task |
| `NonceLocks.EveryOperationTakesWallets` | chains/tempo-spammer/src/robust_nonce_manager.rs:235-596 | every operation, on every branch, begins by locking the map of wallets |
| `PoolModel.IndexAgreesWithScan` | chains/tempo-spammer/src/client_pool.rs:929-1010 | in every serial run the position map is the exact inverse of a duplicate-free list, which rearranges what the legacy scan yields, and both removals agree |
| `PoolModel.LockKeepsIndex` | chains/tempo-spammer/src/client_pool.rs:957-989 | locking with the index just read keeps list, map and locked set in agreement |
| `PoolModel.LockFastEffect` | chains/tempo-spammer/src/client_pool.rs:957-989 | locking always locks, and takes the wallet off the list exactly if it was unlocked and still stands where it was seen |
| `PoolModel.UnlockKeepsIndex` | chains/tempo-spammer/src/client_pool.rs:994-1010 | unlocking a locked wallet keeps them in agreement |
| `PoolModel.RemovalsAgree` | chains/tempo-spammer/src/client_pool.rs:929-951 | removal through the position map equals removal by index |
| `PoolModel.SwapRemoveDropsOne` | chains/tempo-spammer/src/client_pool.rs:971-985 | swap-remove takes exactly one occurrence of exactly that element |
| `PoolModel.LegacyLockBreaksIndex` | chains/tempo-spammer/src/client_pool.rs:569-574 | a legacy lock always breaks the agreement, and its unlock lists the wallet twice |
| `ClientPool.WalletPool.LockWallet` | chains/tempo-spammer/src/client_pool.rs:957-989 | fails exactly on a locked wallet; otherwise locks it and removes it if the index is still right |
| `ClientPool.WalletPool.UnlockWallet` | chains/tempo-spammer/src/client_pool.rs:994-1010 | unlocks and appends the wallet, recording its position |
| `ClientPool.WalletPool.RemoveWallet` | chains/tempo-spammer/src/client_pool.rs:929-951 | the in-place removal gives the specified list and map |
| `ClientPool.WalletPool.TryAcquireFast` | chains/tempo-spammer/src/client_pool.rs:431-515 | the lease is the pick of the first of six attempts that finds a healthy proxy and an unlocked wallet, and there is one exactly if some attempt does and permit, wallets and client are there; otherwise the permit returns, and a failed client creation unlocks again |
| `ClientPool.WalletPool.TryAcquireLegacy` | chains/tempo-spammer/src/client_pool.rs:520-595 | locks a wallet from the scan of unlocked ones, or unlocks it again if no client can be made |
| `ClientPool.RefusalMeansUnhealthy` | chains/tempo-spammer/src/client_pool.rs:453-492 | with the index in order none of the attempts picks a wallet exactly when every one found all proxies banned |
| `PoolInterleaving.SectionsTogether` | chains/tempo-spammer/src/client_pool.rs:957-1010 | with nothing in between, the critical sections make the serial lock and unlock |
| `PoolInterleaving.NoWalletIsLost` | chains/tempo-spammer/src/client_pool.rs:957-1010 | in every interleaving, with stale indices, legacy locks and double releases: occurrences + pending pushes + (1 if locked) >= 1 + pending removals; so an idle wallet is listed |
| `PoolInterleaving.LeaseMutualExclusion` | chains/tempo-spammer/src/client_pool.rs:431-595 | if no stray release hits a locked wallet, holders of a wallet number 1 if it is locked and 0 otherwise, and it is never leased twice |
| `PoolInterleaving.StepKeepsOneHolder` | chains/tempo-spammer/src/client_pool.rs:957-1010 | each step keeps that count if and only if it is not a stray release of a locked wallet |
| `PoolObservable.AtMostOneIffNeverDoubled` | chains/tempo-spammer/src/client_pool.rs:431-595 | in any state, no continuation without a stray release of a locked wallet leases the wallet twice, if and only if it has no more holders than its lock allows |
| `PoolObservable.HarmlessIffNeverDoubled` | chains/tempo-spammer/src/client_pool.rs:206-266 | after any harmless run, the next act is not a stray release of a locked wallet if and only if no harmless continuation after it ever leases any wallet twice |
| `PoolObservable.StrayReleaseDoubles` | chains/tempo-spammer/src/client_pool.rs:206-266 | from any state with a live lease and a stray release of the same wallet, running that release lets the wallet be leased twice |
| `PoolInterleaving.DropsOnlyIsHarmless` | chains/tempo-spammer/src/client_pool.rs:240-266 | runs that end leases only by dropping them contain no stray release |
| `PoolInterleaving.DoubleReleaseLeasesTwice` | chains/tempo-spammer/src/client_pool.rs:206-266 | a concrete interleaving of one explicit release that leaves one wallet with two live leases |
| `LogModel.LogConservation` | core-logic/src/database.rs:946-1002 | in every run: accepted entries, in order, are the flushed batches, then the current batch, then the channel; the table is exactly what committed; batches are non-empty and at most max(1, batch_size), and shorter at each loop head |
| `LogModel.LogAccepts` | core-logic/src/database.rs:349-392 | in every run accepted are exactly the entries sent while the channel was open and had room, in order; accepted and dropped add up to those sent while it was open; none is dropped exactly if none found it full |
| `LogModel.ShortFlushesAreTicks` | core-logic/src/database.rs:962-982 | a batch is flushed only full or on a tick: in every run no more short flushes than ticks |
| `LogModel.FlushedAtMostOnce` | core-logic/src/database.rs:959-990 | if the accepted entries are distinct, no two flushes share one |
| `LogModel.LogDrains` | core-logic/src/database.rs:959-990 | closed and emptied, one tick has handed over every accepted entry; from any state the waiting entries and one tick suffice |
| `LogSelect.WorkerNeverStops` | core-logic/src/database.rs:959-990 | no run of the loop, whatever is sent and whenever it is shut down, leaves it; its log is a run of the log model; once closed and empty only ticks wake it |
| `LogSelect.CanStopIffRefutable` | core-logic/src/database.rs:959-990 | some run ends such a loop if and only if no arm has an irrefutable pattern |
| `LogSelect.StoppedHasHandedAll` | core-logic/src/database.rs:983-1000 | a loop that did end would have handed over every accepted entry |
| `LogModel.RowRoundTrip` | core-logic/src/database.rs:1025-1039 | each column holds its field, the status SUCCESS or FAILED and the duration its signed cast, and the row determines the entry |
| `LogWorker.Worker.QueueTaskResult` | core-logic/src/database.rs:349-392 | queued exactly if the channel is open and has room, and then last in it; dropped exactly if it is open and full; refused exactly if closed; the counters tell |
| `LogWorker.Worker.FlushBatch` | core-logic/src/database.rs:1013-1071 | all rows or none, wherever the database fails, and success exactly if it does not |
| `LogWorker.InsertAll` | core-logic/src/database.rs:1044-1057 | the insert loop succeeds exactly if no insert fails, and then holds all rows in order |
| `LogWorker.BuildRows` | core-logic/src/database.rs:1025-1039 | one row per entry, in order |
| `LogWorker.Worker.OnEntry` | core-logic/src/database.rs:962-972 | receives, batches and flushes a full batch, keeping conservation |
| `LogWorker.Worker.OnTick` | core-logic/src/database.rs:975-982 | flushes a non-empty batch, keeping conservation |
| `LogWorker.Worker.Loop` | core-logic/src/database.rs:959-990 | any sequence of wake-ups keeps conservation and only extends what was flushed |
| `QueryTimer.LagBound` | core-logic/src/database.rs:889-908 | the stored average never exceeds the true mean and lags it by at most (n - 1) / 2 |
| `QueryTimer.OneMoreSample` | core-logic/src/database.rs:895-900 | each update is the exact floor of the weighted mean |
| `QueryTimer.AboveSmallest` | core-logic/src/database.rs:889-908 | it is never below the smallest sample |
| `QueryTimer.LagIsTight` | core-logic/src/database.rs:896-900 | for every n some samples reach the bound exactly |
| `QueryTimer.ProductFits` | core-logic/src/database.rs:899-899 | the intermediate product never exceeds the sum of the samples |
| `QueryTimer.Timer.Record` | core-logic/src/database.rs:889-908 | records successful queries only and keeps the bounds |
| `QueryTimerRaces.NeverAboveLargest` | core-logic/src/database.rs:889-908 | in every interleaving of the loads and stores the average stays at or below the largest sample |
| `QueryTimerRaces.NeverBelowSmallest` | core-logic/src/database.rs:889-908 | from an average at or above the smallest sample, and tasks that carry nothing below it, every interleaving keeps both |
| `QueryTimerRaces.StepAtLeastIff` | core-logic/src/database.rs:891-900 | if the samples, the averages loaded after a nonzero count and the results the tasks carry are at or above the smallest sample, an access leaves them so exactly unless it loads a lower average after a nonzero count |
| `QueryTimerRaces.NeverBelowShare` | core-logic/src/database.rs:889-908 | in every interleaving of n queries on a fresh timer, any stored average is at least one n-th of the smallest sample |
| `QueryTimerRaces.ShareIsReached` | core-logic/src/database.rs:889-908 | for every n, an interleaving of n queries of e ms each that leaves the average e / n |
| `QueryTimerRaces.AboveSmallestIffAlone` | core-logic/src/database.rs:889-908 | on a fresh timer with positive samples every interleaving keeps the stored average, and even just the final one, at or above the smallest sample if and only if there is one query |
| `QueryTimerRaces.AloneIsSequential` | core-logic/src/database.rs:889-908 | the accesses of one query alone make one update of the sequential average |
| `RateLimiter.RateBounds` | core-logic/src/utils/rate_limiter.rs:36-74 | over every run: granted + tokens is at most the initial tokens plus rate times elapsed / 1000, and while the cap does not bind less than one token per refill is missing |
| `RateLimiter.PollIsExact` | core-logic/src/utils/rate_limiter.rs:36-74 | a poll is granted exactly if the old tokens and those of the time passed, rounded down and capped, cover its cost, and what they do not pay is left |
| `RateLimiter.FastPollsNeverRefill` | core-logic/src/utils/rate_limiter.rs:36-54 | polls at most d ms apart with d * rate < 1000 never add a token |
| `RateLimiter.WaitStarves` | core-logic/src/utils/rate_limiter.rs:185-193 | the waiting interval is too short for a token if and only if tps is 0 or does not divide 1000 |
| `RateLimiter.EmptyBucketStarves` | core-logic/src/utils/rate_limiter.rs:185-193 | then an empty bucket polled at most that interval apart grants nothing, ever |
| `RateLimiter.PollGrantsIff` | core-logic/src/utils/rate_limiter.rs:36-74 | an empty bucket polled after d ms grants if and only if d exceeds the interval, or equals it and tps divides 1000 |
| `RateLimiter.GlobalRateHolds` | core-logic/src/utils/rate_limiter.rs:161-182 | however many wallets ask, together they stay within the global bucket's rate |
| `RateLimiter.AcquireIsExact` | core-logic/src/utils/rate_limiter.rs:161-182 | granted exactly if both buckets grant; which bucket is polled and changed when, what becomes of the back-off, and that no other wallet is touched |
| `RateLimiter.BurstIsGranted` | core-logic/src/utils/rate_limiter.rs:134-157 | a new limiter grants the first tps * burst requests, from whatever wallets and at whatever times |
| `RateLimiter.BackoffIsExponential` | core-logic/src/utils/rate_limiter.rs:196-208 | k answers 429 in a row give min(100 * factor^k, max) and touch no other wallet |
| `RateLimiter.TokenBucket.TryAcquire` | core-logic/src/utils/rate_limiter.rs:57-74 | refills, then grants exactly when there are tokens enough |
| `RateLimiter.WalletLimiter.Acquire` | core-logic/src/utils/rate_limiter.rs:161-182 | both buckets, the back-off and the answer after one request, the wallet's token being spent even if the global bucket refuses |
| `RateLimiterRaces.TimePaidOnceIffFresh` | core-logic/src/utils/rate_limiter.rs:36-74 | in every interleaving of atomic accesses tokens granted and left are worth at most the time paid for, which equals the time credited if and only if every refill that went through had loaded the latest credited time |
| `RateLimiterRaces.StepPaysOnceIffFresh` | core-logic/src/utils/rate_limiter.rs:36-54 | each access keeps that account if and only if it is not a stale refill going through |
| `RateLimiterRaces.SharedBucketKeepsRate` | core-logic/src/utils/rate_limiter.rs:36-74 | in every interleaving without stale refills the rate bound holds |
| `RateLimiterRaces.RateKeptIffFresh` | core-logic/src/utils/rate_limiter.rs:36-54 | with whole tokens a millisecond and no refill cut short, the tokens stay within rate times credited time if and only if no refill is stale |
| `RateLimiterRaces.LockedBucketKeepsRate` | core-logic/src/utils/rate_limiter.rs:161-182 | if tasks enter `try_acquire` one at a time, as under the global mutex, no refill is stale and the rate bound holds |
| `RateLimiterRaces.AloneIsPoll` | core-logic/src/utils/rate_limiter.rs:36-74 | the accesses of a task nobody interrupts make exactly one sequential poll |
| `RateLimiterRaces.OverlappingRefillsExceedRate` | core-logic/src/utils/rate_limiter.rs:46-52 | two overlapping refills at one token a second yield two tokens after one second |
| `CircuitBreaker.ClosedCountsTheRun` | core-logic/src/utils/retry.rs:223-291 | on every trace with a positive threshold, CLOSED holds exactly when the count is below it, and the count is then the trailing run of failures |
| `CircuitBreaker.ThresholdMustBePositive` | core-logic/src/utils/retry.rs:284-290 | that equivalence holds on all traces if and only if the threshold is positive |
| `CircuitBreaker.RunsIff` | core-logic/src/utils/retry.rs:223-291 | on every trace the stored time is that of the last failure that ran, and the next call runs exactly if the breaker is not open or that is long enough ago |
| `CircuitBreaker.OpenRunsNothing` | core-logic/src/utils/retry.rs:230-240 | before the reset timeout an open breaker runs nothing and does not change |
| `CircuitBreaker.HalfOpenFailureReopens` | core-logic/src/utils/retry.rs:277-291 | any failure of an admitted call of a breaker that is not closed reopens it |
| `CircuitBreaker.ClosingTakes` | core-logic/src/utils/retry.rs:260-275 | closing takes max(0, success threshold - c) + 1 half-open successes and no fewer |
| `CircuitBreaker.FirstSuccessClosesIff` | core-logic/src/utils/retry.rs:194-275 | on all traces a success admitted while not closed closes the breaker, if and only if the success threshold is not above max(1, failure threshold) |
| `CircuitBreaker.AlwaysRightIffNoneLate` | core-logic/src/utils/retry.rs:223-291 | however calls overlap, an admission and a completion being one step each, CLOSED holds exactly when the count is below the threshold at every point, if and only if no success comes in while the breaker is open |
| `CircuitBreaker.OneAtATimeIsNeverLate` | core-logic/src/utils/retry.rs:223-291 | calls made one at a time never do that |
| `CircuitBreaker.LateSuccessDisarms` | core-logic/src/utils/retry.rs:260-291 | after such a success the first failure of the half-open breaker leaves it half open and admitting every call, for any threshold from 2 |
| `CircuitBreaker.LateSuccessHappens` | core-logic/src/utils/retry.rs:223-291 | for every threshold, one call more than it, all but one failing, makes room for such a success |
| `CircuitBreaker.AloneIsExecute` | core-logic/src/utils/retry.rs:223-258 | an admission followed by its completion is one sequential call |
| `CircuitBreakerRaces.NeverDisarmedIffFewCalls` | core-logic/src/utils/retry.rs:223-291 | no interleaving of the single accesses of n calls on a new breaker leaves it open or half open with a count below the failure threshold, if and only if n is not above that threshold |
| `CircuitBreakerRaces.ClosedSuccessDisarms` | core-logic/src/utils/retry.rs:260-291 | for every threshold below n, an interleaving of n calls that leaves the breaker open with count 0 though no success came in while it was open |
| `CircuitBreakerRaces.AlwaysArmedIffCalm` | core-logic/src/utils/retry.rs:223-291 | in every interleaving of single accesses the breaker, unless closed, has the threshold counted all along if and only if 0 is stored only while closed and OPEN and HALF_OPEN only over such a count |
| `CircuitBreakerRaces.AloneIsSequential` | core-logic/src/utils/retry.rs:223-291 | the accesses of a call that nobody interrupts make exactly one sequential call |
| `CircuitBreaker.CircuitBreaker.ExecuteCall` | core-logic/src/utils/retry.rs:223-291 | the whole new state, and that the operation runs exactly if admitted |
| `RandomShares.RepairedSum` | chains/tempo-spammer/src/tasks/mod.rs:482-507 | every share ends at least 1 and the sum is max(total, S - b), S after lifting zeros, b the shares above one |
| `RandomShares.AddsUpIff` | chains/tempo-spammer/src/tasks/mod.rs:494-506 | the shares add up to the total if and only if the lifted zeros plus any excess do not outnumber the shares above one |
| `RandomShares.EveryProposalAddsUpIff` | chains/tempo-spammer/src/tasks/mod.rs:468-508 | for two or more shares, every proposal not above the total, and even every one that rounding down can make, ends at the total if and only if there are two shares and at least two units |
| `RandomShares.NeedNotAddUp` | chains/tempo-spammer/src/tasks/mod.rs:494-506 | 3 units proposed as [2, 0, 0] end as [2, 1, 1] |
| `RandomShares.TopUpSum` | chains/tempo-spammer/src/tasks/mod.rs:483-488 | topping up adds exactly the missing amount |
| `RandomShares.TopUpInPlace` | chains/tempo-spammer/src/tasks/mod.rs:484-488 | the round-robin loop gives share i diff / count, plus one if i < diff % count |
| `RandomShares.TrimInPlace` | chains/tempo-spammer/src/tasks/mod.rs:495-506 | the single trimming pass with its early exit |
| `RandomShares.CastsAreExactIffClose` | chains/tempo-spammer/src/tasks/mod.rs:483-483 | the difference of the two signed casts is the true one if and only if that is a signed 64-bit number |
| `RandomShares.GenerateShares` | chains/tempo-spammer/src/tasks/mod.rs:468-508 | every share returned, from the proposal alone: topped up evenly with the remainder to the first, raised to one, less one while the excess lasts; and the cases of no share and one share |
| `UniswapV2.PlanIsOptimal` | chains/risechain/src/task/t39_uniswap_v2_swap.rs:202-248 | whichever side is token0, a planned swap passes the pair's fee-adjusted check and no larger output does; no plan exactly when no output passes |
| `UniswapV2.AcceptedUpToAmountOut` | chains/risechain/src/task/t39_uniswap_v2_swap.rs:210-214 | the pair accepts an output if and only if it is positive and at most the computed amount |
| `UniswapV2.BelowReserve` | chains/risechain/src/task/t39_uniswap_v2_swap.rs:210-214 | the amount is always below the reserve |
| `UniswapV2.EmptyReserves` | chains/risechain/src/task/t39_uniswap_v2_swap.rs:202-222 | with an empty reserve there is no plan, or one for the whole other reserve, which the pair refuses |
| `UniswapV2.FitsIn256Bits` | chains/risechain/src/task/t39_uniswap_v2_swap.rs:211-213 | with 112-bit amounts no intermediate overflows 256 bits |
| `TokenFormat.FormatRoundTrip` | chains/tempo-spammer/src/tasks/t05_swap_stable.rs:235-246 | splitting the print at the point and right-padding the fraction recovers every amount exactly |
| `TokenFormat.FormatIsInjective` | chains/tempo-spammer/src/tasks/t05_swap_stable.rs:235-246 | no two amounts print alike |
| `TokenFormat.FormatIsCanonical` | chains/tempo-spammer/src/tasks/t05_swap_stable.rs:239-245 | no trailing zero after a point, no bare point, at most six decimals |
| `TokenFormat.FormatIsTheOnlyPrint` | chains/tempo-spammer/src/tasks/t05_swap_stable.rs:235-246 | a text is the print of an amount if and only if it has that shape, no leading zero included, and reads back as the amount |

## Left out

- Every RPC, HTTP, proxy, wallet-decryption and notification call: their answers are inputs.
- `reset` of a wallet's nonce state and the sharded choice of a manager: the run theorems speak about one epoch between resets.
- Time stamps and error texts inside nonce request states, and the reservation time-outs, which the code declares and never uses.
- Cancellation of a task while it waits for a lock, and panics.
- Finer interleavings of the request map and the in-flight set: `NonceRaces` splits the accesses to the counters only and leaves out the striking of stale nonces from the queue; the run theorems take each operation as one step.
- Confirm: on multiples of ten the source never reaches the state given, because it waits for its own lock; `NonceLocks` has the waiting, this method the intended effect.
- EmptyBucketStarves: polls at most the interval apart, while a sleep lasts at least the interval; `PollGrantsIff` says what any longer sleep does.
- GenerateShares: integers are unbounded; `CastsAreExactIffClose` says when the casts to signed 64-bit change nothing.
- TryAcquire: one task at a time, so its compare-and-swap always succeeds; the interleaved form is `RateLimiterRaces`. The 64-bit overflow of elapsed * rate is not modelled.
- Acquire: the sleep of a back-off is taken as part of the time passed in, and rate settings changed at run time are not modelled.
- Record: one query at a time; the interleaved form is `QueryTimerRaces`. The lag bound is claimed for that case only.
- ExecuteCall: one call at a time; calls that overlap are in the lemmas beside it, by admission and completion, and in `CircuitBreakerRaces`, by single accesses. The 64-bit counter does not wrap.
- The proxy banlist and its scans, the retry loop with jitter, gas, metrics, configuration and the other nonce managers: they would only add easy members.
- The float weights behind the share proposal, SQL text and the on-chain task bodies apart from the lines cited.
