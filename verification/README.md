# Verified model of the Xelma backend's ledgers and protocols

The backend runs a prediction market: users stake on rounds, stakes go to a
Soroban contract and to pools in a database, rounds are settled, and Redis serves
as lock, rate limiter and cache in front of several replicas. This project models
the parts of it in which several steps, processes or stores must agree, and proves
what they keep over every run.

`dafny verify dfyconfig.toml` checks everything.

## How the model is built

Each operation that changes state in the source is an imperative method of a
class, proved equal to a specification function on values; runs are folds of those
functions over arbitrary sequences of operations, and the theorems are about the
runs. Foreign calls (the chain, Redis and database faults, clocks, random draws)
are parameters that may take any value. A database transaction is one atomic step.
Money is `real`, or an integer of 1e-8 units in `BetStore`; times are integer
milliseconds and days integers.

What interleaves: in `IdempotentBet`, `ClaimSteps`, `VersionedCache` and `Rooms` every
single command of every request is a step of its own, in any order with those of the
others. In `PredictionLedger`, `BetLedger` and `SettledBets` the steps are whole transactions. In the
other modules they are whole requests, passes or sweeps, one after the other; what a
reconciler or a worker read before its writes may be out of date where the source
lets it be (`Reconciliation`, `ClaimLedger`).

| module | component |
|---|---|
| `IdempotentBet`, `IdempotentAnswers` | the two-layer idempotency protocol of `executeBet`, and what each request is answered |
| `PredictionLedger`, `PredictionLife`, `Reservations`, `Settlement`, `SettledBets`, `PredictionSaga` | money of predictions, the life of a row, when a stake is accepted, settlement and what it tells about bets, and one submission from reservation to failure handling |
| `Reconciliation`, `ReconciliationVisits`, `ReconciliationDrain` | the sweep over stranded predictions, and what repeated sweeps achieve |
| `BetLedger`, `BetPlacements` | bet rows with their transactional outbox, against the stakes on chain |
| `ClaimLedger`, `ClaimReviews`, `ClaimSteps`, `ClaimDiscipline` | claims, shared by the user's request and the payout worker, as whole operations and as overlapping steps |
| `RateLimit`, `SlidingWindow` | the Redis and in-process fixed windows, and the sliding window of WebSocket events |
| `VersionedCache` | the namespace cache with version counters |
| `MemoryStore`, `StableSort`, `Paging` | the in-memory database and cursor paging |
| `Rooms` | room membership under the per-user lock |
| `PriceRanges`, `Leaderboard` | price ranges, statistics, ranks, and correctness against settlement |
| `DeadLetter` | retries of failed dispatches |
| `LoginStreak`, `Tips`, `BetStore` | challenges and login bonuses, tip selection, pool bookkeeping |

`Wrappers`, `Sums` and `Sets` are small helpers.

## Where the code departs from what it promises

The model follows the code. Each of these is a theorem with its exact condition,
or a run that shows it.

- **Guarantee 3 of the repository's README (no premature refunds) does not hold.** The
  error mapping turns every contract timeout into a text without the word
  "timeout", which is the word the failure handler looks for, so every failed chain
  call is refunded at once (`FailedCallIsRefundedAtOnce`). Guarantee 1 fails with it:
  an error of the finalization takes the same path (`PrematureRefundIff`).
- **SUBMITTED predictions are never confirmed by the sweep** (`SubmittedIsNeverConfirmed`), though it
  counts them as confirmed; they are also what keeps a table from draining (`DrainsIffKeepsMoving`,
  `DrainsIffNothingStuck`) and can starve every younger row.
- **The sweep's position lookup passes round id and wallet in the wrong order**, so a
  stake without a hash is refunded whatever the chain holds.
- **Unconfirmed stakes are in the pools that settlement divides**, against guarantee 5;
  settlement conserves money exactly under the proportion of `SettlementConservesIff`.
- **"One key, one bet" needs three things the source does not ensure** (`OneEffectPerLifeIff`):
  the `operationCompleted` test, which the claim route lacks; that no row expires under
  a request that holds it, since the delete of an in-progress row names no owner; and
  that no BetService call throws after it acted.
- **A 503 does not mean that no bet was processed, and its retry is not always replayed.**
  When the response cannot be stored the bet is placed, the request is told 503, and
  every retry gets 409 for the rest of the row's life instead of the promised replay
  (`LoneRetryIsReplayedIff`, `UnstoredBetIsNeverReplayed`, `FailedStoreStrandsTheKey`). An insert
  of the row that takes effect unacknowledged blocks the key likewise, with no bet placed
  (`UnacknowledgedInsertStrands`).
- **Without `REDIS_URL` the Redis lock is skipped** (distributed-idempotency-lock.ts:216), where
  README.md:1332 of the repository promises a 503; with it, a lock command that fails is
  answered 503 and nothing is done (`LockFailsClosed`).
- **The worker's and the users' claims can overlap**: a wallet gets two open claims
  (`OneOpenClaimIff`) and is submitted again with a claim in flight, by a user as well as
  by the worker, whose check also leaves out its own row (`NeverOverInFlightIff`).
- **A claim is closed with winnings owed when reading them fails**, whether its row is
  PENDING, FAILED, or SUBMITTED without a hash (`ClosedWhileOwedIff`).
- **A settlement that is rolled back leaves RESOLVED bets and BET_RESOLVED events** with its
  amounts, which no later settlement corrects (`EventsCarryTheSettlementIff`).
- **A BET_FAILED event of a throwing placement is rolled back** with its transaction, and
  a stake that landed before its transaction failed has no row (`AlwaysAgreeIff`).
- **A failed version read serves the cache of version 0** (`HitsAreFreshIff`).
- **The room lock is given up on after ten tries and can expire inside the section, and
  reconciliations never take it**; all three lose updates (`LosesNothingIff`).
- **The leaderboard counts as correct what settlement refunds or does not pay**, at an
  unchanged price and at inner range bounds; a rerun of a round counts twice. Outside
  its tests nothing in the source calls `updateUserStatsForRound` or `zsetAdd`.
- **A timestamp cursor drops the rest of a group of equal timestamps** at a page boundary.
- **The login streak and the winning streak are one column** (`User.streak`,
  prisma/schema.prisma:124): settlement resets or raises it (resolution.service.ts:356,
  :525 and :621), and the daily bonus is paid for what it then holds (auth.routes.ts:426
  and :434-440), so a loss lowers and each win raises the bonus of the next login
  (`StreakFormula`, `BonusOfALogin`).
- **The two writes of a login bonus are not one transaction** (`BalanceDrift`).

## Model

| member | source | states |
|---|---|---|
| `IdempotentBet.ExecuteBet.Step` | src/routes/bet-execution.ts:109-224 | one atomic command of the handler, imperative over the two flags and the shared store, equals the transition function for every answer of Redis, the database and BetService, lost replies and bets that take effect and then throw included |
| `IdempotentBet.AdvanceKeepsOwn` | src/routes/bet-execution.ts:156-203 | one command keeps the invariant of its own request and of the row; a request becomes the holder only while no row exists |
| `IdempotentBet.AdvanceKeepsOther` | src/utils/idempotency.util.ts:460-585 | one command of another request keeps this request's invariant, and two requests never hold the row together |
| `IdempotentBet.AdvanceLogs` | src/routes/bet-execution.ts:159-161 | a returned bet is logged only by the holder's own call, with which `operationCompleted` is set and never cleared; a bet that takes effect and throws, only by a request that then knows its call threw |
| `IdempotentBet.AtMostOneBetPerRowLife` | README.md:1318-1321 | over every interleaving of any number of requests and replicas in which no row expires under its holder, with the Redis lock free to expire at any moment, at most one BetService call returns per life of the row; a finished request has placed a bet exactly if its own call returned: then it answers with that bet or with Unavailable, its store not being acknowledged; otherwise it replays the stored bet for the same body or is refused, and if its call took effect and threw, is told that it failed |
| `IdempotentBet.UnacknowledgedStore` | src/routes/bet-execution.ts:161-183 | a store without a reply ends in 503 either way; it strands the bet if and only if it had no effect, and answers the row's life if and only if only its reply was lost |
| `IdempotentBet.UnstoredBetIsNeverReplayed` | src/utils/idempotency.util.ts:460-585 | once a placed bet's response could not be stored, no request of that life of the row is ever answered with it or replays it, whatever run follows |
| `IdempotentBet.LoneRetryIsReplayedIff` | src/utils/idempotency.util.ts:500-545 | after any clean run, a retry on its own is answered with the placed bet if and only if a response was stored in the row's life and the body is the same, and gets a conflict after its twenty looks otherwise |
| `IdempotentBet.FailedStoreStrandsTheKey` | src/routes/bet-execution.ts:161-203 | the run in which a bet is placed, its store fails, the request is told 503 and its retry 409 |
| `IdempotentBet.OneEffectPerLifeIff` | src/routes/bet-execution.ts:197-203 | "one key, one bet": at most one bet takes effect per row life, over all runs, if and only if the catch block tests `operationCompleted`, no row expires under a request that holds it, and no BetService call throws after it acted |
| `IdempotentBet.LateThrowActsTwice` | src/routes/bet-execution.ts:197-203 | the run in which a call takes effect and throws, the row is released, and the retry bets again: two effects in one row life of the guarded handler |
| `IdempotentBet.OneCallPerLifeIff` | src/routes/bets.routes.ts:154-271 | at most one BetService call returns per row life, over all runs, if and only if the catch block tests `operationCompleted` (the claim route does not) and no row expires under a request that holds it (the delete names no owner) |
| `IdempotentBet.UnguardedPlacesTwice` | src/routes/bets.routes.ts:239-271 | the run in which a handler without that test acts twice |
| `IdempotentBet.StaleReleasePlacesTwice` | src/utils/idempotency.util.ts:591-622 | the delete of the in-progress row names no owner: a request that outlived its row deletes the next one's, and one row life sees two bets |
| `IdempotentBet.LockChangesOnlyByOwner` | src/utils/distributed-idempotency-lock.ts:104-274 | a command only sets a free lock or frees its own; a stale holder never takes a newer owner's lock |
| `IdempotentBet.RetryReplays` | src/utils/idempotency.util.ts:266-340 | with the lock free and a stored response, a later request is answered without executing: the stored body for the same body hash, a conflict otherwise |
| `IdempotentAnswers.LockFailsClosed` | src/utils/distributed-idempotency-lock.ts:104-184 | over every run, a request gets past the Redis lock only without one or by setting a free lock to its own id; one whose lock command fails ends in 503 and one that gives up in 409, and none of these has written the row or placed a bet |
| `IdempotentAnswers.FreeLockIsTaken` | src/utils/distributed-idempotency-lock.ts:130-155 | a waiting request whose command goes through takes a free lock and leaves a held one |
| `IdempotentAnswers.AnswerIsTheFirstDecided` | src/routes/bet-execution.ts:109-224 | over every run, each answer comes from the first of the request's commands that decides one, told by how that command went, the row it met and its body; nothing changes it later |
| `IdempotentAnswers.LooksBeforeItTakes` | src/utils/idempotency.util.ts:460-545 | over every run, a request that inserts the row or places a bet has looked for the row and found none |
| `IdempotentAnswers.UnacknowledgedInsertStrands` | src/utils/idempotency.util.ts:500-585 | an insert of the in-progress row that takes effect unacknowledged ends in 503, and until the row expires no bet is placed under the key, whatever run follows |
| `IdempotentAnswers.FailureFreesTheKeyIff` | src/routes/bet-execution.ts:197-203 | after a failure the handler frees the key for a retry, unless the delete of its row fails, which leaves it blocked until it expires |
| `IdempotentAnswers.LockLeftBehindIff` | src/utils/distributed-idempotency-lock.ts:203-274 | a request that is done leaves the lock set to its own id if and only if its lock command took effect unacknowledged or its release failed, and the lock has not expired since |
| `IdempotentAnswers.LeftAloneItEnds` | src/utils/idempotency.util.ts:460-585 | a request not held up at the lock ends within 25 commands that go through, from every state |
| `PredictionLedger.ApplyKeepsWellFormed` | src/services/prediction.service.ts:106-343 | every transaction keeps one row per round and user, pools of the round's shape, and the status, attempt and refund bookkeeping of each row |
| `PredictionLedger.BalanceAndStakesConserved` | src/services/prediction.service.ts:500-537 | over every run of reservations, finalizations, compensations, sweeps and settlements, balance plus live stakes minus payouts of each user never changes |
| `PredictionLedger.PoolsBackedByStakes` | src/services/prediction.service.ts:195-295 | over every run each pool moves exactly with the uncompensated stakes placed in it, row reuse included |
| `PredictionLedger.RefundedAtMostOnce` | README.md:736-736 | each reservation is refunded at most once: refunds and reservations of a row differ by at most one, and agree exactly while `compensatedAt` is set |
| `PredictionLedger.OnlyEligibleRowsArePaid` | README.md:737-737 | a payout appears only on a CONFIRMED or NOT_REQUIRED row of the LOCKED round being settled |
| `Reservations.ReservedIff` | src/services/prediction.service.ts:106-204 | a stake is accepted if and only if the round exists and is ACTIVE, the user's row of it is absent or FAILED, the side or range is one of the round's, and the user exists and can pay |
| `Reservations.RejectedBecause` | src/services/prediction.service.ts:111-204 | each refusal names the first of these that is wrong, with the status of the row that stands in the way |
| `Reservations.AcceptedStake` | src/services/prediction.service.ts:186-262 | an accepted stake is paid by the user, added to the pool of its cell, and held by the user's one row of the round, in place of a FAILED one; nothing else changes |
| `Reservations.NothingGoesBelowZero` | src/services/prediction.service.ts:186-204 | over every run of non-negative stakes, from balances that are not negative and pools that cover their stakes, no balance and no pool goes below zero |
| `PredictionLife.StatusComesFrom` | src/services/prediction.service.ts:371-560 | every status of a row comes from one transaction only: CONFIRMED from finalizing a PENDING row, SUBMITTED from an ambiguous failure, FAILED from refunding a stake that was still out, NEEDS_MANUAL_REVIEW from a flag, PENDING or NOT_REQUIRED from a new stake on a FAILED row |
| `PredictionLife.RowWritesTold` | src/services/prediction.service.ts:375-493 | what a finalization, a mark, a bump and a flag write: attempts and hash of one row, and no money |
| `PredictionLife.RefundTold` | src/services/prediction.service.ts:500-537 | a refund pays the stake back to its user, takes it out of its pool and marks the row, exactly while the row is open and not refunded; nothing else changes |
| `PredictionLife.RoundMovesTold` | src/services/resolution.service.ts:135-180 | a round goes from ACTIVE to LOCKED and from LOCKED to RESOLVED, by a lock and a settlement, and never otherwise |
| `PredictionLife.PayoutTold` | src/services/resolution.service.ts:424-682 | what a settlement writes on each row: the stake in a refund, the stake and its share of the other pools in proportion to the winning pool, or zero; and nothing on rows that are not eligible |
| `PredictionLife.SettlementPaysRows` | src/services/resolution.service.ts:320-345 | each user is paid exactly what the settlement writes on the user's rows |
| `Settlement.PoolsSplit` | src/services/resolution.service.ts:504-510 | a backed pool is its confirmed plus its unconfirmed stakes |
| `Settlement.SettledAmounts` | src/services/resolution.service.ts:321-345 | what a settlement pays, and what it settles, in terms of confirmed and waiting stakes on each side |
| `Settlement.SettlementConservesIff` | src/services/resolution.service.ts:255-420 | a settlement pays out exactly the stakes it settles if and only if the unconfirmed stakes are split between the sides in the proportion of the confirmed ones |
| `Settlement.QuietSettlementConserves` | src/services/resolution.service.ts:424-682 | with no row waiting, settling with a winner or refunding conserves the stakes |
| `Settlement.EmptyPoolPaysNothing` | src/services/resolution.service.ts:512-584 | an empty winning pool pays nothing |
| `Settlement.EarlySettlementCreatesMoney` | src/utils/payout.util.ts:10-21 | a run in which a loser's stake still PENDING pays the winner and is then refunded: 200 in balances become 300 |
| `SettledBets.SettleBetsOf` | src/services/resolution.service.ts:347-371 | the loop that resolves the bets of a settlement's predictions, each in a transaction of its own |
| `SettledBets.HistoryTells` | src/services/bet.service.ts:525-570 | over every history of settlement attempts and other operations, the BET_RESOLVED events of a round tell exactly the shares of the attempts that resolved a bet, rolled back or not |
| `SettledBets.EventsCarryTheSettlementIff` | src/services/resolution.service.ts:135-180 | they all carry what the settlement that committed decided if and only if every share that resolved a bet in an attempt rolled back before was decided the same way again |
| `SettledBets.FirstSettlementIsCarried` | src/services/resolution.service.ts:135-180 | in particular for a round about which nothing was told yet and of which no attempt was rolled back before, whatever other operations came in between |
| `SettledBets.RolledBackSettlementIsToldForGood` | src/services/resolution.service.ts:370-370 | the run in which a bet is told won with 150 by a rolled-back attempt and the settlement decides lost with 0 |
| `PredictionSaga.MappedErrorsNeverMentionTimeout` | src/utils/errors.ts:367-414 | no mapped contract error contains the word the failure handler looks for, for every raw error text |
| `PredictionSaga.NotSentNeverMentionsTimeout` | src/services/soroban.service.ts:216-222 | nor does any error of a call that was never sent |
| `PredictionSaga.MentionsIff` | src/utils/errors.ts:367-369 | a text mentions a word of small letters if and only if the word stands in it, in whatever case |
| `PredictionSaga.MappedErrorTold` | src/utils/errors.ts:367-414 | every contract error is told by the first of the five phrases that its text mentions, and as unexpected otherwise |
| `PredictionSaga.RetryableIff` | src/utils/retry.util.ts:36-68 | a failed finalization is tried again if and only if its code or message names one of the five codes, or its message a timeout |
| `PredictionSaga.RetryEnds` | src/utils/retry.util.ts:92-196 | the bounded retry of the finalization touches only its row, leaves it PENDING as it was or CONFIRMED, and never succeeds with the row still PENDING |
| `PredictionSaga.PredictionService.FinalizeChainSuccess` | src/services/prediction.service.ts:371-474 | the retry loop equals its specification for every sequence of database outcomes |
| `PredictionSaga.PredictionService.SubmitPrediction` | src/services/prediction.service.ts:97-369 | the whole submission, reservation to failure handling, leaves the specified database |
| `PredictionSaga.FailedCallIsRefundedAtOnce` | src/services/prediction.service.ts:476-493 | every failed chain call, ambiguous timeouts included, is compensated at once |
| `PredictionSaga.RetryOutcome` | src/utils/retry.util.ts:92-196 | how the bounded retry ends, told from the outcomes of its attempts alone: at which attempt it gives up, with which error, and whether its write is there |
| `PredictionSaga.PrematureRefundIff` | README.md:733-735 | a stake on chain is refunded exactly when the call was reported failed although it landed, or its finalization attempts end, none applied, on an error that does not say "timeout" |
| `PredictionSaga.SubmittedIff` | src/services/prediction.service.ts:476-493 | a submission leaves its row SUBMITTED exactly when the call succeeded and its finalization attempts end on an error that says "timeout" |
| `Reconciliation.PredictionReconciliationService.ReconcileRow` | src/services/prediction-reconciliation.service.ts:65-132 | the body for one row, faults included, equals its specification and keeps the counters balanced |
| `Reconciliation.PredictionReconciliationService.ReconcilePredictions` | src/services/prediction-reconciliation.service.ts:31-135 | the sweep equals its specification and ends with checked = confirmed + failed + unresolved + errors |
| `ReconciliationVisits.VisitTold` | src/services/prediction-reconciliation.service.ts:65-132 | one visit, for every row as read and as stored, every answer of the chain and every fault: whether the row is confirmed, refunded, flagged or tried again, with which hash, and the one counter it increments |
| `ReconciliationVisits.SweepTakesTheOldest` | src/services/prediction-reconciliation.service.ts:45-57 | a sweep takes up the oldest rows that are PENDING or SUBMITTED since before the cutoff, all of them or as many as its batch |
| `ReconciliationDrain.EverySweepIsBalanced` | src/services/prediction-reconciliation.service.ts:65-132 | in every sweep, with or without faults, each checked row is counted exactly once |
| `ReconciliationDrain.SubmittedRowIsCountedButNotConfirmed` | src/services/prediction.service.ts:543-560 | a visit to a SUBMITTED row that landed counts it as confirmed and changes nothing |
| `ReconciliationDrain.ConfirmedIff` | src/services/prediction.service.ts:543-560 | under any answers, an open row is CONFIRMED after any number of sweeps if and only if it was PENDING and the sweep that closed it was answered that it landed |
| `ReconciliationDrain.SubmittedIsNeverConfirmed` | src/services/prediction.service.ts:543-560 | so a SUBMITTED row never is, through any number of sweeps under any answers |
| `ReconciliationDrain.SweepMakesProgress` | src/services/prediction-reconciliation.service.ts:45-132 | no sweep adds work, and the remaining work strictly falls in every sweep that selects a row not stuck under that sweep's answers |
| `ReconciliationDrain.EveryRowHasItsFate` | src/services/prediction-reconciliation.service.ts:73-126 | with chain answers that may change from sweep to sweep, after any number of sweeps a row is either open and as it began but for its attempts, or closed with the status that the answer of the very sweep that closed it calls for |
| `ReconciliationDrain.SweepsDrain` | src/services/prediction-reconciliation.service.ts:31-135 | if no row is stuck under the answers of any of the sweeps, as many sweeps as there is work close every row, each by the answer of the sweep that closed it |
| `ReconciliationDrain.DrainsIffKeepsMoving` | src/services/prediction-reconciliation.service.ts:31-135 | whatever the answers from sweep to sweep and whatever the batch, the table drains if and only if, as long as a row is open, some later sweep selects a row that is not stuck under its answers |
| `ReconciliationDrain.DrainsIffRowsComeUnstuck` | src/services/prediction-reconciliation.service.ts:31-135 | with room for every row, it drains if and only if no row is left open with answers that keep it stuck from then on |
| `ReconciliationDrain.DrainsIffNothingStuck` | src/services/prediction-reconciliation.service.ts:31-135 | with answers that never change and any batch, it drains if and only if no open row is stuck |
| `ReconciliationDrain.StuckBatchStarvesTheRest` | src/services/prediction-reconciliation.service.ts:46-57 | as long as stuck rows fill the batch under each sweep's answers no sweep changes anything, whatever waits behind them |
| `ReconciliationDrain.RowWithoutHashIsNeverConfirmed` | src/services/prediction-reconciliation.service.ts:98-126 | the position lookup gets its arguments in the wrong order: through any number of sweeps, with the answers the chain then gives, an open row without a hash is only bumped and at most once refunded, never confirmed |
| `ReconciliationDrain.RowWithoutHashIsRefunded` | src/services/prediction-reconciliation.service.ts:98-126 | and with room for every row it is refunded, by exactly the sweep after its attempts are used up |
| `BetLedger.NewestActive` | src/services/bet.service.ts:104-111 | the round found is ACTIVE, of the mode, and none such starts later; none is found only when there is none |
| `BetLedger.BetService.RecordBet` | src/services/bet.service.ts:114-388 | the transaction body works on copies that are committed at its end, or not at all when the chain call throws or a statement or the commit fails; what the call put on chain stays there either way |
| `BetLedger.BetService.ReconcileBet` | src/services/bet.service.ts:394-460 | row and event of the confirmation, with its two no-op cases |
| `BetLedger.BetService.ResolveBet` | src/services/bet.service.ts:519-580 | row and event of the resolution, from any status but RESOLVED |
| `BetLedger.BetService.FailBet` | src/services/bet.service.ts:586-654 | row and event of the failure, from any status but FAILED and RESOLVED |
| `BetLedger.OneRowOneEvent` | src/services/reconciliation.service.ts:141-221 | one operation changes nothing, or one bet together with exactly one event about that bet |
| `BetLedger.OutboxTellsTheBets` | src/services/bet.service.ts:394-636 | after every run each bet's events rebuild its status and hash; BET_ACCEPTED is first and only first, BET_RESOLVED last and there exactly when the bet is RESOLVED; CONFIRMED means hash and times set and failure cleared |
| `BetLedger.ResolvedIsFinal` | src/services/bet.service.ts:540-546 | no further run changes a RESOLVED bet or writes an event about it |
| `BetLedger.ChainBalance` | src/services/bet.service.ts:126-239 | after every run, the stakes on chain and the bets recorded as placed differ by exactly the orphans (landed without a row) and the hollow rows (a row whose stake never landed) |
| `BetLedger.AlwaysAgreeIff` | src/services/bet.service.ts:126-239 | ledger and chain agree throughout a run if and only if no placement landed without committing, because it threw or its transaction failed after the call, and none committed as placed without landing |
| `BetLedger.PlacementsNeverRecordFailures` | src/services/bet.service.ts:180-214 | the FAILED row and BET_FAILED event of a throwing placement are rolled back with the transaction: runs of placements alone never leave either behind, however many throw |
| `BetPlacements.RefusalsTold` | src/services/bet.service.ts:81-111 | a placement is refused for its round if and only if it names one that does not exist or is of the other mode; the other two refusals come from its transaction and its chain call |
| `BetPlacements.RecordedBet` | src/services/bet.service.ts:81-239 | a placement that goes through records one bet with the order's stake, bound to the named round or else to an ACTIVE one of its mode that none starts after, with the status, hash and time of the reply, and one BET_ACCEPTED event; any other records nothing |
| `BetPlacements.StakeLandsIff` | src/services/bet.service.ts:126-178 | a stake lands if and only if its round fits, the call is made, and it lands |
| `BetPlacements.MoveTold` | src/services/bet.service.ts:394-654 | every other operation moves its bet exactly from the statuses it may, with the columns and the one event that go with it, and changes nothing otherwise |
| `BetLedger.RepeatActsIff` | src/services/bet.service.ts:410-418 | a confirmation, resolution or failure, any run of operations, and the same call again: the repeat changes the ledger if and only if the bet was not RESOLVED to begin with, nothing in between resolves it, and the last touch in between is a failure or another hash (repeated confirmation) or a confirmation (repeated failure) |
| `BetLedger.RepeatsAreNoOps` | src/services/bet.service.ts:410-418 | so with no other touch of that bet in between, whatever happens to other bets, the repeat changes neither ledger nor outbox |
| `ClaimLedger.FirstOpen` | src/services/bet.service.ts:704-710 | the oldest open claim of the wallet, or proof that there is none |
| `ClaimLedger.LatestConfirmed` | src/services/payout-reconciliation.service.ts:178-185 | the creation time of a confirmed claim of the wallet than which none is newer; none is found only when there is none |
| `ClaimLedger.PayoutReconciliationService.ClaimWinnings` | src/services/bet.service.ts:687-821 | the user's request over the shared claim table, failing writes included |
| `ClaimLedger.PayoutReconciliationService.VisitRow` | src/services/payout-reconciliation.service.ts:310-469 | the worker's visit to a row from a possibly stale snapshot |
| `ClaimLedger.PayoutReconciliationService.ReconcilePendingPayouts` | src/services/payout-reconciliation.service.ts:224-301 | the pass equals its specification and counts every row exactly once, each counter being the number of visits with its verdict |
| `ClaimLedger.AtMostOneOpenClaim` | src/services/payout-reconciliation.service.ts:103-114 | at most one open claim per wallet over every run of requests, sweeps and visits that do not overlap, however stale the snapshots |
| `ClaimSteps.OneOpenClaimIff` | src/services/payout-reconciliation.service.ts:103-114 | over every run of overlapping requests, sweeps and visits, each wallet keeps at most one open claim throughout if and only if no activity creates a row while one created after its own lookup is still open |
| `ClaimSteps.OverlapOpensTwoClaims` | src/services/bet.service.ts:704-710 | the run in which a request and a sweep look before either writes, and the wallet has two open claims |
| `ClaimLedger.SubmissionOverInFlightIff` | src/services/payout-reconciliation.service.ts:401-420 | without overlap, a submission is made over a claim in flight exactly by a worker whose PENDING or FAILED row has become SUBMITTED since it was read, while winnings still read as owed; never by a user |
| `ClaimDiscipline.NeverOverInFlightIff` | src/services/payout-reconciliation.service.ts:401-420 | over all runs of overlapping requests, sweeps and visits, no wallet is submitted with a claim in flight if and only if no activity starts while another of the same wallet is under way and the worker never takes up as PENDING or FAILED a row that is SUBMITTED by then |
| `ClaimSteps.ClaimInFlightEscaped` | src/services/payout-reconciliation.service.ts:401-420 | a claim in flight at a submission escaped the lookup in one of four ways: created since, SUBMITTED since, the row the worker itself holds, or hidden behind an older open claim |
| `ClaimDiscipline.SubmitsOver` | src/services/bet.service.ts:727-729 | the runs that submit over a claim in flight: a user who read a FAILED claim that the worker then submits, and a worker with an outdated row |
| `ClaimSteps.SequentialRunsAreRuns` | src/services/bet.service.ts:687-735 | every run of whole requests, sweeps and visits is one of the runs of single steps |
| `ClaimLedger.AcceptedClaimIsResubmittedIff` | src/services/bet.service.ts:727-735 | with at most one open claim per wallet, a claim the chain accepted is submitted again by the next request exactly when it could not be recorded |
| `ClaimSteps.ClosedRowsStayClosed` | src/services/payout-reconciliation.service.ts:105-110 | whatever overlaps with what, no row is lost and a closed claim never changes again |
| `ClaimLedger.ClosedWhileOwedIff` | src/services/soroban.service.ts:697-725 | a visit to any row of an owed wallet turns it CONFIRMED exactly when the write goes through on an open row and either the winnings read failed (it reads as zero), for rows not SUBMITTED or without a hash, or the transaction succeeded, for SUBMITTED rows with one; and which counter it is booked under |
| `ClaimLedger.PassClosesWhileOwedIff` | src/services/payout-reconciliation.service.ts:224-301 | over a whole pass, the rows of owed wallets that end it newly CONFIRMED are exactly those whose own visit met that condition |
| `ClaimReviews.VisitTold` | src/services/payout-reconciliation.service.ts:310-478 | which counter a visit increments, for every row as read and as stored and everything it meets: submitted, confirmed, nothing pending, failed and flagged each exactly when; errors and no-ops write nothing |
| `ClaimReviews.VisitErrsIff` | src/services/payout-reconciliation.service.ts:262-288 | an error is counted exactly when something the visit asks, or a write it has to make, fails |
| `ClaimReviews.RowAfterVisit` | src/services/payout-reconciliation.service.ts:401-600 | what each of these leaves of the row, and of no other row |
| `ClaimReviews.FailingClaimEndsInReview` | src/services/payout-reconciliation.service.ts:525-570 | over every sequence of passes that read the table afresh, a row whose claims all fail is FAILED until its attempts are used up and then NEEDS_MANUAL_REVIEW for good, after max(1, max - attempts) passes |
| `ClaimReviews.UserClaimTold` | src/services/bet.service.ts:687-821 | what a request is told and what it leaves of the oldest open claim: in flight, recorded as submitted, or a failed attempt |
| `ClaimReviews.QueuedIff` | src/services/payout-reconciliation.service.ts:165-215 | a wallet is queued if and only if it has no open claim and none confirmed since its last bet was settled |
| `ClaimSteps.ClosedWalletIsNotRequeued` | src/services/payout-reconciliation.service.ts:173-193 | a wallet with a closed claim and no open one, with no request of its user under way and no sweep of it past its check, gets no open claim again, however the steps that follow interleave, until its user asks or a bet of it settles after the closed claim was created |
| `RateLimit.RedisServer.EvalIncrement` | src/lib/redis.ts:567-576 | the increment script, command by command |
| `RateLimit.RedisServer.EvalDecrement` | src/lib/redis.ts:579-586 | the decrement script, which creates a hash without reset or expiry for a missing key |
| `RateLimit.RedisRateLimitStore.Increment` | src/lib/redis.ts:644-669 | the call under the outage policy, Redis or local window, or both when Redis ran it and its answer was lost |
| `RateLimit.RedisRateLimitStore.Decrement` | src/lib/redis.ts:671-690 | likewise for a decrement |
| `RateLimit.RedisRateLimitStore.ResetKey` | src/lib/redis.ts:692-711 | likewise for a reset |
| `RateLimit.RedisRefinesLocal` | src/lib/redis.ts:553-576 | for every sequence of increments, decrements and resets under a nondecreasing clock, and whenever Redis drops expired keys, the scripts and the local window give the same replies |
| `RateLimit.ReplyFollows` | src/lib/redis.ts:748-757 | every reply follows from the earlier ones: one more than where the key stands until its reset time, and 1 with a new window from then on |
| `RateLimit.AllowanceHolds` | src/lib/redis.ts:748-757 | what the current window still allows in any interval, as an invariant of every run |
| `RateLimit.WindowAdmitsAtMost` | src/lib/redis.ts:748-757 | any half-open interval of the window's length admits at most 2 * limit - 1 requests of a key |
| `RateLimit.WorstCaseReachesTheBound` | src/lib/redis.ts:748-757 | and that bound is reached for every limit and every window of two milliseconds or more |
| `RateLimit.OutagesAdmitAtMost` | src/lib/redis.ts:717-728 | however Redis comes and goes, and whichever of its answers are lost: the same bound when failing closed, twice it per replica when failing open |
| `SlidingWindow.SocketRateLimiter.IsAllowed` | src/socket.ts:68-80 | the method equals its step function |
| `SlidingWindow.PruningIsExact` | src/socket.ts:68-80 | on every history the pruning limiter answers like one that counts in the full history |
| `SlidingWindow.KeptIsBounded` | src/socket.ts:61-80 | no key ever holds more than `max` timestamps |
| `SlidingWindow.IntervalAdmitsAtMostMax` | src/socket.ts:68-80 | at most `max` allowed calls of a key in every half-open interval of the window's length |
| `SlidingWindow.RefusedOnlyWhenFull` | src/socket.ts:73-76 | a call is refused only when the window ending with it holds exactly `max` allowed calls |
| `SlidingWindow.KeysAreIndependent` | src/socket.ts:57-59 | a key is answered as if it were alone |
| `VersionedCache.Cache.MakeNamespacedKey` | src/lib/redis.ts:136-159 | the version read, with version 0 for a failed one |
| `VersionedCache.Cache.InvalidateNamespace` | src/lib/redis.ts:169-189 | the increment of the version counter: lost without notice when Redis is down, counted as an error although it took effect when only its reply is lost |
| `VersionedCache.Cache.Get` | src/lib/redis.ts:198-224 | the second step of a get, and its hit and miss counters |
| `VersionedCache.Cache.Set` | src/lib/redis.ts:241-255 | the second step of a set |
| `VersionedCache.HitIsFresh` | src/lib/redis.ts:132-255 | in every interleaving of two-step gets and sets, invalidations and evictions, a get whose version read succeeded returns only a value set under its namespace and key by a call that read its version after the last invalidation before the getter's own read |
| `VersionedCache.EveryGetMissesAfterInvalidation` | src/lib/redis.ts:157-159 | with no set begun since an invalidation, every later get misses |
| `VersionedCache.HitsAreFreshIff` | src/lib/redis.ts:136-153 | every hit of a namespace is fresh, over all runs, if and only if no version read of the namespace may fail once it has been invalidated |
| `VersionedCache.SetThenGetHits` | src/lib/redis.ts:198-255 | what a set wrote a later get of the key finds, whatever interleaves, while the namespace is not invalidated, the entry not dropped and no other set of the key under way |
| `VersionedCache.FailedVersionReadServesStale` | src/lib/redis.ts:145-152 | a getter whose version read fails can return an invalidated value |
| `VersionedCache.KeyTextInjective` | src/lib/redis.ts:155-159 | distinct keys have distinct texts while namespaces contain no colon |
| `VersionedCache.EntriesMissVersionKeys` | src/lib/redis.ts:132-134 | no entry overwrites a version counter, unless a namespace is called `ns` |
| `StableSort.SortIsTheStableArrangement` | src/lib/memory-prisma.ts:223-231 | any sorted arrangement that keeps equivalent rows in order is the one the model computes, so the platform's stable sort is covered |
| `MemoryStore.LastAssignmentWins` | src/lib/memory-prisma.ts:112-139 | flattening a where keeps exactly the last condition on each key |
| `MemoryStore.MatchIsMeaning` | src/lib/memory-prisma.ts:141-162 | the evaluator agrees, for every where, with a meaning that calls none of it: nested AND, OR, NOT, compound keys, the last of repeated keys, and every operator in terms of numbers, membership and concatenation |
| `MemoryStore.MatchOperatorIff` | src/lib/memory-prisma.ts:64-93 | every operator selects what it means: the numbers and dates on the right side of its bound, the members of its list, the texts that are a concatenation with it |
| `MemoryStore.NegateFlips` | src/lib/memory-prisma.ts:157-159 | NOT negates |
| `MemoryStore.CountsAddUp` | src/lib/memory-prisma.ts:400-404 | count(w) + count(NOT w) is the size of the collection |
| `MemoryStore.SortRowsIsTheStableOrder` | src/lib/memory-prisma.ts:217-232 | on uniform sort fields the result is ordered, a permutation, keeps equal rows in order, and is the only such list |
| `MemoryStore.SortedByFirstDifference` | src/lib/memory-prisma.ts:217-232 | sorted rows stand in the order of the first key that tells them apart, rising or falling as the key says |
| `MemoryStore.UpdateTold` | src/lib/memory-prisma.ts:164-197 | an update leaves each field as its change makes it, sums and products counting an absent field as zero, every other field as it was, and `updatedAt` at the time of the update |
| `MemoryStore.SliceTold` | src/lib/memory-prisma.ts:305-326 | a slice is the rows from its start on, as many as asked for or as there are |
| `MemoryStore.MemoryCollection.Create` | src/lib/memory-prisma.ts:274-287 | the row is set under its id, in place or at the end, and ids stay unique |
| `MemoryStore.MemoryCollection.Count` | src/lib/memory-prisma.ts:400-404 | the number of matching rows |
| `MemoryStore.MemoryCollection.Update` | src/lib/memory-prisma.ts:328-344 | the oldest match is updated under its new id; no match is an error and changes nothing |
| `MemoryStore.MemoryCollection.Delete` | src/lib/memory-prisma.ts:379-388 | exactly the oldest match goes; no match is an error and changes nothing |
| `MemoryStore.MemoryCollection.UpdateMany` | src/lib/memory-prisma.ts:346-359 | the loop writes each match back under its new id |
| `MemoryStore.UpdateManyIsPointwise` | src/lib/memory-prisma.ts:346-359 | an update that leaves ids alone changes exactly the matching rows, where they stand |
| `MemoryStore.ChangingAnIdKeepsTheOldRow` | src/lib/memory-prisma.ts:355-356 | an update that changes an id adds the new row beside the old one |
| `MemoryStore.MemoryCollection.DeleteMany` | src/lib/memory-prisma.ts:390-398 | exactly the rows matching NOT w remain, in order |
| `Paging.PageDependsOnListing` | src/lib/memory-prisma.ts:305-326 | a page depends on the filtered and sorted rows only |
| `Paging.PageIsNextSlice` | src/utils/pagination.util.ts:124-145 | a page is the next slice of the listing and its cursor the last row of it, present exactly when more rows follow |
| `Paging.IdCursorPagesAreTheListing` | src/services/chat.service.ts:139-179 | following id cursors terminates and the pages are the whole listing, each row once |
| `Paging.LostCursorEndsThePaging` | src/services/notification.service.ts:231-251 | in memory, a cursor row that left the listing gives an empty last page |
| `Paging.HistoryPagesAreCompleteIff` | src/routes/user.routes.ts:391-410 | following timestamp cursors gives every item exactly once if and only if no page boundary splits a group of equal timestamps |
| `Rooms.MultiplayerSessionService.ClampRooms` | src/services/multiplayer-session.service.ts:55-67 | the loop yields the first 32 distinct non-empty rooms in order |
| `Rooms.MultiplayerSessionService.AddRoom` | src/services/multiplayer-session.service.ts:154-175 | the stored rooms of the user after an add, and nobody else's |
| `Rooms.MultiplayerSessionService.RemoveRoom` | src/services/multiplayer-session.service.ts:182-201 | likewise for a removal |
| `Rooms.MultiplayerSessionService.ReconcileRooms` | src/services/multiplayer-session.service.ts:217-263 | the stored and returned rooms of a reconciliation, with its three early returns |
| `Rooms.MultiplayerSessionService.RecordConnect` | src/services/multiplayer-session.service.ts:96-145 | a reconnect keeps and returns the stored rooms |
| `Rooms.OpsDoWhatTheySay` | src/services/multiplayer-session.service.ts:154-201 | an added room comes last unless present or 32 are stored; a removed one is gone; rooms stay distinct, non-empty and at most 32 |
| `Rooms.ReconcileIsExactIff` | src/services/multiplayer-session.service.ts:203-216 | reconciliation yields exactly the adapter's non-empty rooms if and only if there are at most 32; survivors keep their order |
| `Rooms.ReconcileIsIdempotent` | src/services/multiplayer-session.service.ts:217-263 | a second reconciliation changes nothing, for every adapter list |
| `Rooms.LockedCallsAreSequential` | src/services/multiplayer-session.service.ts:147-153 | while the lock holds, any interleaving of adds and removes from any number of instances equals running the calls that took effect one after the other |
| `Rooms.HolderKeepsTheLock` | src/utils/room-lock.ts:38-115 | until it expires, the lock stays with the call that took it whatever the others do, and its own release frees it |
| `Rooms.StepTold` | src/utils/room-lock.ts:38-115 | only a write touches the rooms; a write and a failure leave a call nothing but its release; a release frees the lock only if it is its own |
| `Rooms.RoomsStayWellFormed` | src/services/multiplayer-session.service.ts:55-67 | stored rooms stay distinct, non-empty and at most 32 whatever the lock does |
| `Rooms.LosesNothingIff` | src/utils/room-lock.ts:38-67 | no run loses an update if and only if no add or removal goes without the lock, the lock never expires under a call at work, and no reconciliation (which never takes it) overlaps another call |
| `Rooms.OverlapLosesAnUpdate` | src/utils/room-lock.ts:38-67 | giving up on the lock, or its expiry during the section, loses one of two adds |
| `Rooms.SyncDuringAddLosesAnUpdate` | src/services/multiplayer-session.service.ts:217-263 | a reconciliation during an add: the room it added is lost |
| `PriceRanges.OverlapIssues` | src/schemas/rounds.schema.ts:46-57 | the check of neighbours raises no issue if and only if no two ranges overlap |
| `PriceRanges.WinningRange` | src/services/resolution.service.ts:450-461 | the loop returns the winner of the specification |
| `PriceRanges.WinnerIff` | src/services/resolution.service.ts:452-461 | a range of a checked round wins exactly when the price lies in it, the upper bound counting only for the last |
| `Leaderboard.LeaderboardService.UpdateUserStatsForRound` | src/services/leaderboard.service.ts:409-476 | the loop upserts the results of the eligible predictions in order, up to the transaction that fails |
| `Leaderboard.RowsAreRecomputed` | src/services/leaderboard.service.ts:440-467 | after any processing each row equals recomputation from the processed results, and exists exactly for users with one |
| `Leaderboard.RoundIsCounted` | src/services/leaderboard.service.ts:409-467 | a round counts for each user the eligible predictions of the user in it, and as correct those that were; one that is not closed counts nothing |
| `Leaderboard.ProcessedUpTo` | src/services/leaderboard.service.ts:427-432 | a call that fails at an upsert has counted the results before it and no others |
| `Leaderboard.RowsAreConsistent` | src/services/leaderboard.service.ts:443-466 | predictions = wins + losses, correct = wins, earnings add up over the modes and stay within the stakes |
| `Leaderboard.EarningsAreTheStakes` | src/services/leaderboard.service.ts:430-466 | earnings are the stakes of the correct results less the stakes of the others, in all and in each mode |
| `Leaderboard.RerunCountsTwice` | src/services/leaderboard.service.ts:427-429 | a rerun after a failure counts its first part twice |
| `Leaderboard.AccuracyIsClose` | src/services/leaderboard.service.ts:57-60 | the rounded accuracy is within half a hundredth of the true percentage, and is 100 exactly when at most one in 20000 missed |
| `Leaderboard.SortedSetRank` | src/services/leaderboard.service.ts:32-46 | the sorted-set rank lies between COUNT(greater) + 1 and COUNT(greater or equal), and is the former exactly when the entry before earns more |
| `Leaderboard.PagesAgree` | src/services/leaderboard.service.ts:148-199 | with distinct earnings every sorted-set page and its ranks are the database's |
| `Leaderboard.GetUserPosition` | src/services/leaderboard.service.ts:335-365 | the rank by sorted set or by count; where the set is in sync both lie in the same bounds and are equal when no two users earn the same |
| `Leaderboard.GetLeaderboard` | src/services/leaderboard.service.ts:148-199 | the page by sorted set or by database; the same page with the same ranks when the set is in sync and earnings are distinct |
| `Leaderboard.WindowTold` | src/services/leaderboard.service.ts:148-199 | a page is the entries from its offset on, as many as its limit or as there are |
| `Leaderboard.UpDownDisagreesIff` | src/services/leaderboard.service.ts:485-490 | leaderboard and settlement disagree exactly on DOWN with an unchanged price |
| `Leaderboard.LegendsDisagreesIff` | src/services/leaderboard.service.ts:491-496 | and exactly at the upper bound of a range other than the last |
| `DeadLetter.DeadLetterQueueService.RecordFailure` | src/services/dead-letter-queue.service.ts:103-133 | a recorded failure is PENDING with one attempt; a database error records nothing and returns null |
| `DeadLetter.FailureIsQueued` | src/services/dead-letter-queue.service.ts:103-133 | a failure is queued, PENDING and with one attempt used, exactly when its insert goes through |
| `DeadLetter.DeadLetterQueueService.RetryOne` | src/services/dead-letter-queue.service.ts:169-243 | one retry, with handler and database outcomes, equals its specification |
| `DeadLetter.DeadLetterQueueService.RetryAll` | src/services/dead-letter-queue.service.ts:249-299 | the pass over the oldest open rows equals its specification; resolved and abandoned count the rows whose retries ended so, and failed is the rest |
| `DeadLetter.RetryTold` | src/services/dead-letter-queue.service.ts:169-243 | a retry dispatches its row once unless it is unknown or RESOLVED; the row is then RESOLVED exactly when the dispatch went out and was recorded, else ABANDONED or RETRYING by its attempts, or unchanged when nothing can be recorded |
| `DeadLetter.PassTakesTheOldest` | src/services/dead-letter-queue.service.ts:257-270 | a pass takes the oldest open rows, as many as it is asked for between 1 and 200 |
| `DeadLetter.RowIsClosedInTime` | src/services/dead-letter-queue.service.ts:219-231 | a new row is closed after at most maxAttempts - 1 visits, for maxAttempts >= 2 |
| `DeadLetter.FailingRowUsesThemAll` | src/services/dead-letter-queue.service.ts:219-231 | a row whose dispatches all fail stays open through every earlier visit and is ABANDONED by that one |
| `DeadLetter.PassesDrain` | src/services/dead-letter-queue.service.ts:249-299 | with working writes, as many passes as there are visits left close every row, whatever the handlers do |
| `DeadLetter.UnrecordableRowBlocksTheRest` | src/services/dead-letter-queue.service.ts:289-290 | a row whose retry cannot be recorded ends every pass before the younger rows |
| `DeadLetter.ResolvedIsNeverSent` | src/services/dead-letter-queue.service.ts:192-195 | a RESOLVED row never changes and is never dispatched again |
| `DeadLetter.DeliveredTwiceIff` | src/services/dead-letter-queue.service.ts:197-225 | a delivered dispatch is sent again by the next visit exactly when its success could not be recorded |
| `LoginStreak.ChallengeIsOneShot` | src/routes/auth.routes.ts:263-339 | in any order of arrival at most one connect gets in on a challenge, and none once it is used or expired |
| `LoginStreak.FirstInTimeUsesIt` | src/routes/auth.routes.ts:263-339 | exactly the first attempt by the right wallet before the expiry uses an unused challenge up, and it gets in exactly when its signature is valid |
| `LoginStreak.UserAccount.Connect` | src/routes/auth.routes.ts:361-467 | the account part of the handler, stopping between its writes included |
| `LoginStreak.UserAccount.SettlePrediction` | src/services/resolution.service.ts:346-358 | what settling one of the user's predictions writes to the same streak column |
| `LoginStreak.StreakFormula` | src/routes/auth.routes.ts:407-430 | over every history of logins and settlements the streak column is the length of the run of consecutive login days, less the days a lost prediction wiped out, plus the predictions won since |
| `LoginStreak.StreakIsTheRunIff` | src/routes/auth.routes.ts:426-426 | so it is the run exactly when the wins since the last loss in the run make up for the days that loss wiped out |
| `LoginStreak.QuietStreakIsTheRun` | src/routes/auth.routes.ts:407-430 | in particular while no prediction of the user settles during the run |
| `LoginStreak.DaysInARowArePaid` | src/routes/auth.routes.ts:422-440 | logins on days in a row are paid 100, from the third day on 150 and from the seventh on 200, for every number of days |
| `LoginStreak.BonusOfALogin` | src/routes/auth.routes.ts:434-440 | each login on a new day is paid for that column, not for the run of days |
| `LoginStreak.LossBreaksTheStreak` | src/services/resolution.service.ts:521-526 | days 1, 2, 3 with a loss in between: the streak is 1 and the third bonus 100 instead of 150 |
| `LoginStreak.WinsInflateTheBonus` | src/services/resolution.service.ts:612-622 | two wins between two days: the second login is paid as the fourth day would be |
| `LoginStreak.BonusCount` | src/routes/auth.routes.ts:422-466 | over every history there is one bonus for each distinct login day, one more for each halted login of a known user on a new day, and one less if the first login halted |
| `LoginStreak.OneBonusPerDay` | src/routes/auth.routes.ts:422-450 | so one for each distinct login day as long as no login halts, whatever settles in between |
| `LoginStreak.BalanceDrift` | src/routes/auth.routes.ts:442-466 | over every history, halted logins included, the balance exceeds 1000 plus the ledger by exactly 100 if the first login halted, less the bonuses of the known user's halted logins |
| `LoginStreak.BalanceIsTheLedgerIff` | src/routes/auth.routes.ts:442-466 | so the balance is 1000 plus the ledger exactly when those two amounts are the same |
| `LoginStreak.BalanceIsTheLedgerByEvents` | src/routes/auth.routes.ts:442-466 | by the events alone: it is 1000 plus the ledger exactly when the bonuses due, by the streak formula, for halted logins on new days come to 100 if the first login halted and to nothing otherwise |
| `LoginStreak.BalanceIsTheLedger` | src/routes/auth.routes.ts:456-466 | in particular over completed logins |
| `LoginStreak.HalfwayLoginIsPaidTwice` | src/routes/auth.routes.ts:442-466 | a login that stopped between its writes is paid again: two bonuses on the ledger, one in the balance |
| `Tips.WeightedRandomSelection` | src/services/education-tip.service.ts:359-379 | the loop returns the tip whose cumulative weight interval holds the draw and never reaches its fallback |
| `Tips.SelectionIsUnique` | src/services/education-tip.service.ts:369-375 | exactly one tip answers to a draw |
| `Tips.ShareOfATip` | src/services/education-tip.service.ts:359-375 | the draws that answer with a tip are an interval as long as its priority, or 50 when it has none, and no interval is empty |
| `Tips.ToConsiderIff` | src/services/education-tip.service.ts:312-328 | the tips to choose from are those whose condition holds and that were not shown lately, or all whose condition holds when all of them were |
| `Tips.ElevenInARowDiffer` | src/services/education-tip.service.ts:312-336 | of any eleven tips generated in a row no two are the same |
| `Tips.LibraryHasEnough` | src/services/education-tip.service.ts:22-163 | the shipped library has eleven templates that are always eligible |
| `Tips.TipCache.CacheTip` | src/services/education-tip.service.ts:426-446 | at most 1000 entries, and a pruning removes 200 of which none is newer than any that stays |
| `BetStore.InMemoryBetStore.AddUpDownBet` | src/data/bet-store.ts:114-142 | pools of the round and the recorded bet, bound only to a round of the mode |
| `BetStore.InMemoryBetStore.AddPrecisionBet` | src/data/bet-store.ts:144-168 | likewise for a precision bet |
| `BetStore.BetsTold` | src/data/bet-store.ts:114-209 | a bet is taken as made and bound to the round it names if and only if there is one of its mode; a mark changes the status of its bet alone, and its hash when it brings one |
| `BetStore.InMemoryBetStore.GetReconciliationSummary` | src/data/bet-store.ts:230-241 | the counts per status, which add up to the number of bets taken |
| `BetStore.PoolsAreBacked` | src/data/bet-store.ts:114-209 | over every run a round's pools are its seed plus exactly its bound bets; precision rounds count them, up/down rounds never do |
| `BetStore.HackathonBetTold` | src/services/hackathon.service.ts:46-119 | a hackathon bet is placed if and only if its round exists and is active and its user can pay; who pays, which pool grows, and which refusal names what |
| `BetStore.HackathonMoneyIsConserved` | src/services/hackathon.service.ts:46-119 | over every sequence of bets balances plus pools stay constant and no balance goes below zero |

## Left out

- Transactions are modelled as serializable steps: anomalies that PostgreSQL's READ COMMITTED would allow inside overlapping transactions are not captured.
- Money is exact: Decimal rounding to eight places and conversions to floating point are not modelled, except for the rounding of accuracy.
- Idempotency: the rejection of malformed keys, the memory-mode store and the daily pruning of rows appear only as the expiry event; requests under different keys touch disjoint state and are not modelled together.
- IdempotentBet.AtMostOneBetPerRowLife: asks that no row expires under a request that still holds it, because `StaleReleasePlacesTwice` shows the claim false otherwise.
- Reservations.NothingGoesBelowZero: takes stakes as not negative, which the request schema checks, and starts from pools that cover their stakes.
- A LEGENDS prediction is bound to its range by the range's position, which takes the ranges of a round as distinct; the pools in the ranges' JSON are the cells of the ledger's rounds.
- Bet rows, claims and failed dispatches are kept in creation order, so an ordering by creation time is an ordering by position.
- Wallet owners, audit events, notifications, websocket emissions and metrics written beside the modelled rows are left out; of the outbox only bet events are kept.
- ClaimLedger.AtMostOneOpenClaim: speaks of operations that do not overlap, because `OverlapOpensTwoClaims` shows the claim false otherwise; `ClaimSteps.OneOpenClaimIff` has the exact condition.
- ClaimLedger.SubmissionOverInFlightIff: likewise; `ClaimDiscipline.NeverOverInFlightIff` is the statement for overlapping operations.
- BetLedger: `landed` of a returned placement is an input like the rest of the chain's answer, so a row may be SUBMITTED whose stake never landed; when chain transactions confirm is not modelled.
- PredictionSaga follows one submission; what other transactions do to its row in between is covered by the runs of PredictionLedger only.
- ClaimReviews.FailingClaimEndsInReview: the passes follow one another; what a request of the user does to the row in between is in the runs of ClaimLedger and ClaimSteps only.
- Claims: the unique constraint on the hash is one of the reasons a write may fail; the age filter that selects the worker's rows is not modelled, so a visit may be to any row.
- RateLimit.RedisRefinesLocal: one clock serves caller and Redis; replicas whose clocks run against each other are not modelled. A window of zero length is excluded, Redis deleting such a key at once.
- The cache's client bypass, when no connection exists at all, is a step that touches nothing; JSON encoding is left out.
- MemoryStore: text is never read as a number or a date, an unsupported operator does not throw, and `divide`, `select`, `upsert`, `groupBy`, `findFirst` and `findUnique` are not modelled. The text of an id is a parameter.
- Sort fields that are numbers in some rows and not in others make the comparison inconsistent; such collections are outside `SortRowsIsTheStableOrder`.
- The base64url text of cursors (section 5 of RFC 4648) is taken as invertible; offset paging only slices.
- `getLeaderboardCursor` offsets its ranks by the rows above the cursor row only, so no global rank is claimed for it; address masking and the JSON cache of pages are left out, and the number of users is not part of a page.
- Metadata and timestamps of sessions are left out.
- Dead-letter dry runs, listing, redaction and clean-up are left out; two passes at once are not modelled.
- LoginStreak.StreakFormula: logins come on nondecreasing days; with a clock set back, the code counts a step of one day back as a consecutive day. Users are created by logging in.
- SettledBets.EventsCarryTheSettlementIff: attempts to settle a round come one after the other; two that race through their transactions are not modelled.
- LoginStreak.BonusCount: the logins of a user come one after the other; two that overlap both read the earlier login day and both pay.
- LoginStreak: payouts and stakes, which other writes make to the same balance, are not part of it.
- Daylight saving in day differences, signature checks and token issuing are left out; a challenge is consumed before its signature is checked.
- Hackathon bets in the mock tables are left out.
- Tip texts and their interpolation are left out; the random draw is a parameter.
- The oracle's resolve loop, stale connections, token expiry of sockets, tournaments, the education guides, the scheduler and all Express wiring are left out: single-branch checks or timers around the operations modelled here.
