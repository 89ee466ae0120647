# Core wallet: outbox relay, transaction retry, statements and retention

A Dafny model of four parts of the wallet platform, with proofs.

1. **The outbox relay** (polling mode and the CDC status updater). Posting procedures write rows
   into WLT_OUTBOX; any number of relay workers claim rows with `FOR UPDATE SKIP LOCKED`, publish
   them to Kafka while the locks are held, and then record the outcome in one transaction. The two
   bulk `UPDATE`s carry no status guard, and publishing happens before the commit, so delivery,
   duplicates, the retry budget and the backoff are facts about whole runs.
2. **The retrying transaction wrapper** `withTx`/`runTx` with the error classification that decides
   what may be run again, and the result variables its callbacks capture.
3. **Account statements**: keyset pages and the cursor that chains them.
4. **The retention janitor** that purges SENT outbox rows in batches while everything else runs.

## How it is built

`RelaySystem.dfy` is a labelled step system: a table, open claim transactions, a broker log, the
counters and some history. A label carries every choice of the environment, so a run is a sequence
of labels. `now()` is frozen when a transaction begins, and `Begin` and `Claim` are separate steps;
the CDC statement is enabled only while its row is not locked (PostgreSQL documentation, section
13.2.1, Read Committed). A session can be lost under a worker that goes on publishing (`Sever`),
since the publish loop never asks the database. `RelaySafety`, `RelayHistory`, `RelayTheorems`,
`RelayAtomicity`, `RelayProgress`, `RelayDelivery`, `RelayExhaustion`, `RelayShutdown`,
`RelayMessages`, `RelayRefinement` and `RelayLimits` prove what every run keeps, what it reaches, and what it does
not promise.

`OutboxRepo.dfy`, `Polling.dfy` and `Metrics.dfy` are the imperative side: the transaction with its
own row versions, the batch, the publish loop, the poll loop and the counters as classes. What
other sessions do to the database between two statements, and what the other workers of the
process add to the shared counters and publisher, are inputs (`World`), so each method's contract
is exact: it says when it succeeds, not only what success means. `PollRefinement.dfy` and
`PollRuns.dfy` connect the two sides: every run of the system is an interference the methods are
proved against, and a whole poll, and a whole poll loop, is one run of the system that ends in the
database, the calls and the counters the methods promise. `PollShutdown.dfy` puts the loops of all
workers together: when they have returned, the relay is drained.

`Cdc.dfy` has the consumer loop over a topic that its own marks and the posting procedures
lengthen. `PgErrors.dfy` and `TxRetry.dfy` cover the retry wrapper, `Statement.dfy` the pages,
`Retention.dfy` the purge. `Backoff.dfy` compares the Go and SQL versions of the retry schedule;
`Doubles.dfy` and `ServerArithmetic.dfy` do so for the double arithmetic the server really
performs. The relay's model uses `Backoff.SqlWait`, which is the server's wait for base and cap in
whole microseconds below those bounds (`ServerArithmetic.WholeMicrosecondsAgree`).

Assumptions about the environment, each visible in a definition: broker offsets of a topic partition
only grow (`RelaySystem.FreshPosition`); event ids are never reused; in CDC mode the connector
writes every insert and every effective update of the table to the consumed topic as an envelope
with the row's id (`Cdc.IsChangeOf`; the connector configuration in
services/outbox-relay/internal/debezium/connector.go routes by the `topic` column instead, and then
nothing comes back); other sessions respect row locks and the server's clock does not run backwards
(`OutboxRepo.Allowed`); a server error 40001, 40P01 or of class P0 in answer to COMMIT means the
transaction was rolled back, and the driver never answers COMMIT with a domain error
(`TxRetry.World.Honest`); stored transaction ids and uuids are not the zero value (`TxRetry.Id`);
while a purge runs, every transaction that may mark a row SENT began after the run's last cutoff
(`Retention.YoungerThan`; what `Purge` assumes of the others follows by `Retention.RunAges`).
The replies of the broker, the failures of single calls and the cancellation of contexts are
arbitrary parameters. Times are nanoseconds.

## Where the code and its comments disagree

The model follows the code.

- services/outbox-relay/internal/usecase/port.go:26-28 says row locks keep a row from ever being
  published twice. An abort after the publish republishes it, any number of times
  (`RelayLimits.DuplicatesUnbounded`), and a worker whose session is lost publishes even what
  another one has delivered (`RelayLimits.LateDuplicateAfterSent`). `RelayTheorems.RecordsConserved`
  says where each copy comes from; `RelayAtomicity.SettledForGood` says exactly which copies can
  still come once an event is settled.
- services/outbox-relay/internal/usecase/polling.go:32-36 describes a schedule capped at Max. It
  levels off at min(Base * 2^20, Max), which is Max only for large enough bases
  (`Backoff.PlateauReachesMax`, `Backoff.PlateauBelowMax`).
- services/outbox-relay/internal/usecase/polling.go:32-36 keeps `Delay` in lockstep with the claim
  predicate. An interval holds whole microseconds, so the two part for a base that is none
  (`ServerArithmetic.SubMicrosecondBaseDiffers`; exact condition below 2^32 s in
  `ServerArithmetic.DelayAgreesWithServer`), and beyond 2^32 s even for one that is
  (`ServerArithmetic.LongWaitDiffers`).
- services/outbox-relay/internal/config/config.go:239-241 bounds MAX_ATTEMPTS only from below, while
  the attempts column is a SMALLINT: a row that has used it up keeps its whole batch from committing
  (`RelayDelivery.CommitPossibleExactly`) and is never delivered (`RelayExhaustion.LargeBudgetStrands`,
  exact condition in `RelayExhaustion.AlwaysDeliverableExactly`).
- services/outbox-relay/internal/usecase/polling.go:21-26 motivates the wait by the time of the failure.
  The wait runs from the frozen clock of the claim (`RelayLimits.WaitRunsFromClaim`), and a long
  batch leaves none of it (`RelayLimits.NoWaitLeft`).
- services/wallet-service/internal/janitor/retention.go:160 reads a short batch as "nothing older is
  left", and lines 21-23 allow the janitor on every replica. With another janitor deleting part of
  the selection a short batch can leave old rows (`Retention.ShortBatchCanMislead`; the exact
  condition is in `Retention.Drained`).
- services/wallet-service/internal/repo/postgres.go:373-378 fills two result fields only when they
  are not NULL, so a retried call can report the transaction of a rolled-back attempt
  (`TxRetry.MerchantReportsRolledBackTransaction`, exact condition in
  `TxRetry.MerchantResultFreshExactly`).
- services/wallet-service/internal/http/handler/manual_je.go:163 does not clamp the limit that the
  cursor rule compares with, so a limit above 200 ends after one page
  (`Statement.UnclampedLimitTruncates`, exact condition in `Statement.FollowIsScan`).
- services/outbox-relay/internal/kafka/consumer.go:105-114 marks a failed message as consumed, so one
  transient database error can leave a delivered row live for good (`Cdc.StrandedExactly`,
  `Cdc.OneErrorStrands`). The error count does not say which: a lost reply counts as an error and
  has delivered the row (`Cdc.ErrsYetSettles`).

## Model

| member | source | states |
|---|---|---|
| Backoff.DelayIsCapped | services/outbox-relay/internal/usecase/polling.go:37-46 | for every accepted base and cap, and whatever the platform makes of an out-of-range conversion, the Go delay is min(float64(Base) * 2^e, Max) |
| Backoff.ToFloat64IsNearest | services/outbox-relay/internal/usecase/polling.go:41 | the conversion of the base yields a value of 53 bits times a power of two; none is nearer to the base, and of two as near the even one is taken |
| Backoff.LargestDurationIsCapped | services/outbox-relay/internal/usecase/polling.go:42-44 | the largest duration converts to 2^63, which overflows before any doubling, and the delay is the cap on either platform |
| ServerArithmetic.DelayAgreesWithServer | services/outbox-relay/internal/repo/outbox.go:124-130 | with seconds travelling as doubles: for a base that float64 represents exactly (every one below 2^53 ns is) and a wait below 2^32 s Go and the server agree exactly when the wait is a whole number of microseconds; beyond that, only if it is |
| ServerArithmetic.WholeWaitSurvives | services/outbox-relay/internal/repo/outbox.go:127-130 | below 2^32 s the double operations and the rounding of make_interval give a whole number of microseconds back unchanged |
| ServerArithmetic.WholeMicrosecondsAgree | services/outbox-relay/internal/usecase/polling.go:32-36 | a base that float64 represents exactly and a cap below 2^32 s, both in whole microseconds: Go, the server and the schedule agree at every attempt |
| ServerArithmetic.LongWaitDiffers | services/outbox-relay/internal/repo/outbox.go:127-130 | an accepted cap of 136 years in whole microseconds which the server makes one microsecond longer |
| ServerArithmetic.SubMicrosecondBaseDiffers | services/outbox-relay/internal/config/config.go:242-248 | an accepted base of 1500 ns where Go says 1500 ns and the server cannot |
| Backoff.SmallBasesAreExact | services/outbox-relay/internal/usecase/polling.go:41 | every base below 2^53 ns converts to float64 exactly |
| Backoff.WaitMonotone | services/outbox-relay/internal/repo/outbox.go:127 | the claim's wait never shrinks as attempts grow |
| Backoff.PlateauReachesMax | services/outbox-relay/internal/usecase/polling.go:32-36 | the schedule levels off at min(Base * 2^20, Max) and reaches Max if and only if Base * 2^20 >= Max; the rounded wait does if and only if Max is the microsecond nearest to that plateau |
| Backoff.PlateauBelowMax | services/outbox-relay/internal/config/config.go:242-248 | an accepted configuration whose waits never reach Max |
| Backoff.WindowClosedForm | services/outbox-relay/internal/usecase/polling.go:21-26 | the whole scheduled window is Base * (2^j - 1) plus the cap for each failure after the j-th doubling |
| Backoff.WindowDrift | services/outbox-relay/internal/repo/outbox.go:127 | rounding moves that window by at most 500 ns per wait, and not at all for whole microseconds |
| Backoff.DefaultWindow | services/outbox-relay/internal/usecase/polling.go:25-26 | with 5 s, 5 min and 10 attempts the window is 1215 s |
| Outbox.SplitAt | services/outbox-relay/internal/usecase/polling.go:153-184 | each claimed event ends in exactly one of the two lists, with the position its own publish returned |
| Outbox.CommitOutcome | services/outbox-relay/internal/repo/outbox.go:153-203 | the two unguarded bulk updates give every claimed row its own outcome and change no other row |
| Outbox.CommitColumns | services/outbox-relay/internal/repo/outbox.go:163-199 | column by column: an acknowledged row is SENT at the transaction's now(), with its own reply's position; a failed one is stamped now() and FAILED, or DEAD when the budget is spent; attempts grow by one and every other column stays |
| Outbox.OutcomeFitsExactly | db/export/schema.sql:5332-5337 | the commit fits the SMALLINT columns exactly when every claimed row's own outcome does |
| Outbox.AcceptedExactly | services/outbox-relay/internal/config/config.go:236-249 | the accepted configurations, which the theorems assume, are exactly those the loader returns |
| RelaySystem.LockedRowsAreStable | services/outbox-relay/internal/repo/outbox.go:119-130 | no step of another session changes or removes a row an open batch has locked |
| RelaySystem.LocksOutlastRuns | services/outbox-relay/internal/repo/outbox.go:43-46 | the same over any run until the batch ends |
| RelaySystem.LockInvKept | services/outbox-relay/internal/repo/outbox.go:119-130 | no row is ever held by two open batches, and a held row is live, unchanged since its claim and eligible at the transaction's frozen clock |
| RelaySystem.ClaimKeepsLocks | services/outbox-relay/internal/repo/outbox.go:119-130 | SKIP LOCKED makes a new claim disjoint from every open one |
| RelaySystem.CommitRow | services/outbox-relay/internal/repo/outbox.go:95-106 | a commit touches only rows that were PENDING or FAILED and claimed by it, each by its own outcome |
| RelaySafety.StatusInvKept | services/outbox-relay/internal/repo/outbox.go:191-199 | status and attempts stay consistent with the retry budget under every step |
| RelaySafety.TerminalRowsAbsorb | services/outbox-relay/internal/repo/outbox.go:64-75 | SENT and DEAD rows never change again; only the purge removes one, and only a SENT one |
| RelaySafety.CallsInvKept | services/outbox-relay/internal/usecase/polling.go:156-184 | an open batch has called the publisher exactly once per answered event |
| RelaySafety.MarksInvKept | services/outbox-relay/internal/usecase/polling.go:136-199 | committed batches hold one acknowledged publish per polled SENT event, one exhausting failure per DEAD event, none otherwise |
| RelaySafety.CommitMarks | services/outbox-relay/internal/repo/outbox.go:163-199 | what one commit adds to those counts for one event |
| RelayHistory.RecordInvKept | services/outbox-relay/internal/usecase/polling.go:156-195 | every polled SENT row keeps a record of its message at its stamped position |
| RelayHistory.OneRecordPerPosition | services/outbox-relay/internal/kafka/producer.go:61-86 | a topic, partition and offset hold at most one record |
| RelayHistory.FailureStamp | services/outbox-relay/internal/repo/outbox.go:124-127 | a row the claim predicate admits may be stamped with the transaction's clock: the wait since its last failure is over |
| RelayHistory.StampsInvKept | services/outbox-relay/internal/repo/outbox.go:191-199 | consecutive failure stamps of an event are at least the scheduled wait apart, under every step |
| RelayHistory.SpacedTotal | services/outbox-relay/internal/usecase/polling.go:21-26 | stamps that far apart add up to the whole window |
| RelayHistory.MetricsInvKept | services/outbox-relay/internal/metrics/metrics.go:48-71 | every publish is counted once, as processed and published or as failed, and an exhausting failure also as dead |
| RelayHistory.FetchInvKept | services/outbox-relay/internal/metrics/metrics.go:74-79 | every fetched event has been published, or waits in a batch whose worker still publishes, or was abandoned by a crash |
| RelayTheorems.RecordsConserved | services/outbox-relay/internal/usecase/polling.go:136-199 | in every reachable state an event's records are one behind its polled SENT mark plus those of aborted batches, of lost acknowledgements and of open batches |
| RelayTheorems.OpenDeliveries | services/outbox-relay/internal/usecase/polling.go:132-135 | at most one open batch has published an event, and none once it is SENT or DEAD |
| RelayTheorems.DuplicateBound | services/outbox-relay/internal/usecase/polling.go:186-191 | without aborts and lost acknowledgements an event is published at most once; each extra record is due to one of them; SENT means at least one record |
| RelayTheorems.SentHasItsRecord | services/outbox-relay/internal/repo/outbox.go:163-175 | a polled SENT row, purged or not, has exactly one record at its stamped position, with its own message |
| RelayTheorems.EveryEventAccountedFor | services/outbox-relay/internal/usecase/polling.go:186-191 | no posted event is dropped: it is live, DEAD after spending its whole budget, CDC-marked, or SENT with a record |
| RelayTheorems.StatusFollowsAttempts | services/outbox-relay/internal/repo/outbox.go:181-199 | PENDING means 0 attempts, FAILED 1 to max-1, DEAD exactly max, SENT 1 to max |
| RelayTheorems.BackoffWindow | services/outbox-relay/internal/repo/outbox.go:124-127 | the latest failure of a FAILED or DEAD row is at least the sum of its waits after the first, under any interleaving |
| RelayTheorems.DefaultsOutlastOutage | services/outbox-relay/internal/usecase/polling.go:21-26 | with the defaults a DEAD row survived at least 1215 s of failures |
| RelayTheorems.DeadIsNeverSilent | services/outbox-relay/internal/usecase/polling.go:162-171 | events_dead equals the DEAD rows plus the exhausted failures of aborted and open batches |
| RelayTheorems.FetchedAccountedFor | services/outbox-relay/internal/usecase/polling.go:149-184 | in every reachable state events_fetched is processed + failed plus the claimed events not yet published and those a crash left unpublished |
| RelayShutdown.StopDrains | services/outbox-relay/internal/usecase/polling.go:93-101 | when no batch begins and every open one ends, nothing is open or locked, a row is claimable exactly when it is eligible, and every fetched event is accounted for, whatever else runs |
| RelayShutdown.OrderlyStopBalances | services/outbox-relay/internal/usecase/polling.go:93-101 | after a life of the process without lost sessions or kills, fetched = processed + failed and published = processed |
| RelayExhaustion.AlwaysDeliverableExactly | services/outbox-relay/internal/repo/outbox.go:112-130 | from every reachable state some run delivers any given live row, exactly when MaxAttempts fits the attempts column |
| RelayExhaustion.LargeBudgetStrands | services/outbox-relay/internal/config/config.go:239-241 | with an accepted MaxAttempts above 32767 a reachable state holds a live row that no run ever delivers |
| RelayExhaustion.FullForGood | services/outbox-relay/internal/repo/outbox.go:163-199 | a live row that has used up the attempts column is live after every run |
| RelayDelivery.CommitPossibleExactly | services/outbox-relay/internal/repo/outbox.go:163-199 | a commit is possible exactly when no claimed row has used up the attempts column and every acknowledged partition fits: one such row blocks its whole batch |
| RelayAtomicity.RepliesCollected | services/outbox-relay/internal/usecase/polling.go:156-184 | over any run a batch that stays open collects exactly its own broker answers, in order, and keeps its clock and claim |
| RelayAtomicity.PollIsAtomic | services/outbox-relay/internal/usecase/polling.go:132-135 | whatever runs between claim and commit, every claimed row ends as its own broker answer says, computed column by column from the row, its event and the clock of the claim |
| RelayAtomicity.SettledRecords | services/outbox-relay/internal/repo/outbox.go:43-46 | a step adds a record of a SENT, DEAD or purged event exactly when a worker with a lost session publishes it |
| RelayAtomicity.SettledForGood | services/outbox-relay/internal/repo/outbox.go:43-46 | over any run a settled event stays settled and its records grow by exactly those late publishes |
| RelayProgress.StepSpends | services/outbox-relay/internal/repo/outbox.go:184-203 | no step gives an event attempts back and a commit takes one from each row it claimed |
| RelayProgress.CommitsSpendBudget | services/outbox-relay/internal/repo/outbox.go:184-203 | over any run without inserts, commits plus attempts left never exceed the attempts left at the start |
| RelayProgress.RunsDrain | services/outbox-relay/internal/repo/outbox.go:184-203 | a run without inserts commits at most the attempts left, whatever the broker does, and after that many every row is SENT or DEAD |
| RelayProgress.PassingClaimIsFull | services/outbox-relay/internal/repo/outbox.go:128-130 | a claim that passes an eligible, unlocked row over fills its LIMIT with rows that are not newer |
| RelayProgress.StarvationBound | services/outbox-relay/internal/repo/outbox.go:119-130 | the commits of claims that pass a waiting row over, times the batch size, are at most the attempts left ahead of it |
| RelayRefinement.StepRefines | services/outbox-relay/internal/usecase/polling.go:132-135 | seen from one event every step is a delivery, one counted failure, parking at the budget, or nothing |
| RelayRefinement.RunRefines | services/outbox-relay/internal/usecase/polling.go:132-135 | every run projected to one event is a behaviour of that automaton |
| RelayRefinement.DeliveryHasRecord | services/outbox-relay/internal/usecase/port.go:56-61 | a delivery by the poller is visible only with an acknowledged publish of a committed batch in the log |
| RelayMessages.PostedExactly | services/outbox-relay/internal/repo/outbox.go:163-199 | after any run the system holds exactly the posted events, each with the message and creation time of its posting |
| RelayMessages.PublishedAsPosted | services/outbox-relay/internal/usecase/polling.go:201-219 | whatever is published, on time, again or late, carries the topic, key and payload its event was posted with |
| RelayLimits.DuplicatesUnbounded | services/outbox-relay/internal/usecase/port.go:26-28 | for every n a reachable state holds n records of one event although no acknowledgement was lost |
| RelayLimits.LateDuplicateAfterSent | services/outbox-relay/internal/usecase/polling.go:156-184 | a reachable state where an event was SENT by one batch and then published again by a worker whose session was lost |
| RelayLimits.OlderEventAfterClaim | services/outbox-relay/internal/repo/outbox.go:128-130 | oldest first holds only among the rows a claim sees: a reachable state where an older event was posted after a newer one was claimed |
| RelayLimits.WaitRunsFromClaim | services/outbox-relay/internal/repo/outbox.go:191-199 | after a failed commit the row is eligible at t exactly when the wait since the batch's frozen clock is over, so a long batch leaves no wait |
| RelayLimits.NoWaitLeft | services/outbox-relay/internal/repo/outbox.go:191-199 | a reachable commit after which the row it failed is claimable again at the same instant |
| Metrics.Metrics.RecordFetch | services/outbox-relay/internal/metrics/metrics.go:74-79 | adds to fetched only |
| Metrics.Metrics.IncrementSuccess | services/outbox-relay/internal/metrics/metrics.go:48-54 | adds one to processed and to published |
| Metrics.Metrics.IncrementErrors | services/outbox-relay/internal/metrics/metrics.go:57-62 | adds one to failed and to its own kind of error |
| Metrics.Metrics.IncrementDead | services/outbox-relay/internal/metrics/metrics.go:67-71 | adds one to dead and leaves failed alone |
| OutboxRepo.OldestFirst | services/outbox-relay/internal/repo/outbox.go:119-130 | the claim query returns distinct candidates, oldest first, up to the limit, and leaves no older candidate out |
| OutboxRepo.PgTx.SelectForUpdate | services/outbox-relay/internal/repo/outbox.go:120-130 | locks exactly the rows it returns, none of them locked before |
| OutboxRepo.PgTx.UpdateSent | services/outbox-relay/internal/repo/outbox.go:163-175 | the bulk update on the transaction's own view: succeeds exactly when the session lives and every written row fits, all or nothing |
| OutboxRepo.PgTx.UpdateFailed | services/outbox-relay/internal/repo/outbox.go:191-199 | the same for failures |
| OutboxRepo.PgTx.Commit | services/outbox-relay/internal/repo/outbox.go:102-104 | installs the row versions and releases the locks in one step; when refused only the release happens, on a lost session nothing |
| OutboxRepo.PgTx.Rollback | services/outbox-relay/internal/repo/outbox.go:108-110 | drops the row versions, releases the locks, and does nothing after the end |
| OutboxRepo.MarkSent | services/outbox-relay/internal/repo/outbox.go:153-179 | the three arrays carry every reference to the update; exactly when it succeeds |
| OutboxRepo.MarkFailed | services/outbox-relay/internal/repo/outbox.go:184-203 | the failed ids reach the update; exactly when it succeeds |
| OutboxRepo.PgBatch.Commit | services/outbox-relay/internal/repo/outbox.go:93-106 | takes effect exactly when the session lives, nothing refuses it and every row fits; then both updates are in the table, else neither; success exactly when the reply arrived too |
| OutboxRepo.FetchPending | services/outbox-relay/internal/repo/outbox.go:119-149 | the scanned events are the locked rows as they are in the table |
| OutboxRepo.ClaimBatch | services/outbox-relay/internal/repo/outbox.go:47-59 | a batch holds its claim's locks; a failed begin, or a fetch that fails after its query locked rows, leaves no lock |
| OutboxRepo.Database.MarkSent | services/outbox-relay/internal/repo/outbox.go:61-80 | the guarded autocommit CDC update: exactly when it takes effect, on PENDING and FAILED only, and when it reports success; a lost reply reports an error after it took effect |
| Polling.BatchCounted | services/outbox-relay/internal/usecase/polling.go:153-184 | at batch end processed, published, failed and dead grew by the sizes of the lists and by the exhausted failures |
| Polling.SplitKeepsOrder | services/outbox-relay/internal/usecase/polling.go:153-184 | both lists keep claim order |
| Polling.SplitCovers | services/outbox-relay/internal/usecase/polling.go:153-184 | together they hold exactly the claimed events |
| Polling.PollingRelay.PublishOne | services/outbox-relay/internal/usecase/polling.go:157-183 | one turn of the loop: one call, one list entry, its counters |
| Polling.PollingRelay.PublishAll | services/outbox-relay/internal/usecase/polling.go:153-184 | every claimed event is published once in claim order, among whatever the other workers publish and count |
| Polling.OwnCalls | services/outbox-relay/internal/usecase/polling.go:153-184 | however the workers interleave, the calls of a batch are exactly its own events, once each and in claim order |
| Polling.PollingRelay.WriteOutcome | services/outbox-relay/internal/usecase/polling.go:191-196 | commit and deferred rollback: exactly when the outcome is written and when success is reported, each row's outcome, and no lock left |
| Polling.PollingRelay.ProcessBatch | services/outbox-relay/internal/usecase/polling.go:136-199 | exactly one whole poll (`PollOk`): the claim the claim predicate demands, rows still as claimed when written unless the session was lost, written exactly when the server lets it through and it fits, locks gone, and its share of the calls and counters |
| Polling.ClaimedRows | services/outbox-relay/internal/repo/outbox.go:119-130 | what a poll claims, in row fields: PENDING rows at once, FAILED ones whose wait is over, none locked, SENT or DEAD; a qualifying row is passed over only by a full batch of rows that are not newer |
| Polling.WrittenColumns | services/outbox-relay/internal/repo/outbox.go:163-199 | what a written poll leaves in every column of each claimed row, from its event, the claim's clock and its own reply; no other row changes |
| Polling.WrittenExactly | services/outbox-relay/internal/repo/outbox.go:95-106 | a poll's outcome is written exactly when its session lives, the server lets the commit through, no claimed row has 32767 attempts and no acknowledged partition is above 32767 |
| Polling.PollingRelay.RunLoop | services/outbox-relay/internal/usecase/polling.go:95-130 | a whole number of polls, each starting from what the other sessions left and ended when cancellation is seen, with this worker's share of the shared calls and counters; each failed publish is counted under its own kind of error, and no other kind is |
| Polling.ShareBalances | services/outbox-relay/internal/usecase/polling.go:149-184 | whenever cancellation comes, a worker's own share has fetched = processed + failed and published = processed |
| PollRefinement.OthersAreAllowed | services/outbox-relay/internal/repo/outbox.go:43-46 | any run of the system while a batch is open is an interference the worker's methods are proved against |
| PollRefinement.ClaimIsRun | services/outbox-relay/internal/repo/outbox.go:47-59 | the worker's claim is a begin and a claim step of the system |
| PollRefinement.PublishRun | services/outbox-relay/internal/usecase/polling.go:156-184 | with fresh broker positions the publish loop is a run, ending in the loop's calls and counters |
| PollRefinement.EndOfPoll | services/outbox-relay/internal/usecase/polling.go:191-196 | with its answers in, the system can commit the batch exactly when the outcome fits, and its commit or rollback leaves exactly the database the poll left |
| PollRuns.SharedLedger | services/outbox-relay/internal/usecase/polling.go:153-184 | over any run with any foreign steps, the broker's calls and the counters are the interleaving of the batch's own and the others' entries which the worker's methods promise |
| PollRuns.PollIsRun | services/outbox-relay/internal/usecase/polling.go:136-199 | a whole poll, idle, failed, severed or complete, is one run of the system, from begin to commit or rollback, ending in the database, calls and counters that ProcessBatch promises, its batch committed or aborted |
| PollRuns.LoopIsRun | services/outbox-relay/internal/usecase/polling.go:95-130 | a whole poll loop, with anything the others do during and between its polls, is one run ending in what RunLoop promises, and every batch it began is committed or aborted |
| PollShutdown.WorkersDrain | services/outbox-relay/internal/usecase/polling.go:85-101 | once every worker's loop has returned, with anything the others do during its publishes and between its polls, no batch is open, nothing is locked and every fetched event is accounted for |
| PollRuns.AlonePlays | services/outbox-relay/internal/usecase/polling.go:153-184 | for any broker answers at fresh positions such a run exists: the batch's own publishes play the poll |
| PollRuns.SeveredPlays | services/outbox-relay/internal/usecase/polling.go:153-184 | the same for a session lost at the end of the publishes |
| Cdc.MarksExactly | services/outbox-relay/internal/kafka/consumer.go:121-149 | exactly the parseable non-delete events with a non-zero id reach the table, stamped with the CDC message's position |
| Cdc.ErrsExactly | services/outbox-relay/internal/kafka/consumer.go:104-149 | in message fields: a message errs exactly when it is garbled, or is no delete, carries an image and either has no id or meets a database failure or a column overflow; deletes and changes without an image never err |
| Cdc.MarkIsSystemStep | services/outbox-relay/internal/repo/outbox.go:61-75 | the consumer's mark of an unlocked row is a step of the relay's system |
| Cdc.FeedbackBounded | services/outbox-relay/internal/kafka/consumer.go:103-117 | whatever is inserted, consumed or replayed, the topic grows by exactly the inserts and the rows that stop being live |
| Cdc.SettledRowsStay | services/outbox-relay/internal/repo/outbox.go:61-75 | a row that is not live is never marked again |
| Cdc.FirstMarkWins | services/outbox-relay/internal/kafka/consumer.go:103-149 | over any run with replays in any order a row is marked at most once, by the first message that can |
| Cdc.MarkedRowStamps | services/outbox-relay/internal/repo/outbox.go:64-75 | its attempts grew by one and its position is that message's |
| Cdc.ReplayIsNoOp | services/outbox-relay/internal/repo/outbox.go:73-74 | replaying a message changes nothing exactly when its mark does not take effect or its row is not live |
| Cdc.StrandedExactly | services/outbox-relay/internal/kafka/consumer.go:105-114 | a live row stays live exactly when no mark by a consumed message naming it took effect |
| Cdc.ErrsYetSettles | services/outbox-relay/internal/kafka/consumer.go:105-114 | a mark counts as an error and settles its row at once exactly when it took effect and its reply was lost |
| Cdc.LostReplyStillSettles | services/outbox-relay/internal/kafka/consumer.go:105-114 | a row whose only message counted as an error and which is SENT with that message's stamps |
| Cdc.OneErrorStrands | services/outbox-relay/internal/kafka/consumer.go:105-114 | one failed message is enough |
| Cdc.CdcHandler.MarkDelivered | services/outbox-relay/internal/usecase/cdc.go:30-35 | a zero id is refused without touching the table; otherwise the guarded mark, with its effect and its error stated apart |
| Cdc.CdcHandler.Handle | services/outbox-relay/internal/kafka/consumer.go:121-149 | parses, ignores deletes, resolves the id, reports each kind of error exactly when it arises, in message fields, and marks exactly when the call takes effect |
| Cdc.CdcHandler.ConsumeOne | services/outbox-relay/internal/kafka/consumer.go:104-115 | delivering a message is the step of the feedback system with the environment's fault and clock, counted exactly once: as processed and published, or as failed under its own kind of error |
| Cdc.CdcHandler.ConsumeClaim | services/outbox-relay/internal/kafka/consumer.go:103-117 | once producers are quiet the loop ends although its marks lengthen the topic; it has consumed every message in order, those written meanwhile too, and marks failed ones as well; its run, the final table and every counter are those of the session its environment determines |
| Cdc.SessionSettles | services/outbox-relay/internal/kafka/consumer.go:103-117 | in such a session, a message naming a live row whose database call takes effect with stamps that fit leaves the row settled, whatever else is consumed, posted or fails |
| Cdc.PostedAreSettled | services/outbox-relay/internal/kafka/consumer.go:103-117 | with a database that lets every mark commit, a consumer that has caught up leaves every row posted meanwhile SENT, with its own message, one attempt and the position of a change event of its own |
| PgErrors.ParsedVersionConflict | services/wallet-service/internal/repo/errors.go:107-113 | the parsed code is VERSION_CONFLICT exactly when the message is, or names it before its first colon up to white space |
| PgErrors.TrimSpaceExactly | services/wallet-service/internal/repo/errors.go:112 | trimming removes all the white space at both ends and nothing else |
| PgErrors.ParsedExactly | services/wallet-service/internal/repo/errors.go:107-113 | code and detail are what stands before and after the first colon, trimmed; without a colon the whole message is the code |
| PgErrors.ServerErrorTable | services/wallet-service/internal/repo/errors.go:48-88 | code and detail of every server error by SQLSTATE; a P0 error passes its own non-empty code on |
| PgErrors.OtherErrorsTable | services/wallet-service/internal/repo/errors.go:26-47 | a domain error passes through first, then a deadline and a cancellation are timeouts, and without a server error nothing is told |
| PgErrors.CodeExactly | services/wallet-service/internal/repo/errors.go:26-89 | the public code of every error, from the error alone |
| PgErrors.RetriableExactly | services/wallet-service/internal/repo/errors.go:26-89 | exactly which errors are retried: a domain VERSION_CONFLICT, or a non-timeout server error 40001, 40P01, or P0 naming VERSION_CONFLICT |
| PgErrors.RetriableServerErrorsAborted | services/wallet-service/internal/domain/errors.go:42-46 | a retriable server error is a definite abort |
| PgErrors.ForeignErrorsAreOpaque | services/wallet-service/internal/repo/errors.go:82-87 | any other SQLSTATE maps to INTERNAL_ERROR whatever its text |
| TxRetry.PgWalletRepo.RunTx | services/wallet-service/internal/repo/postgres.go:127-159 | one attempt, call by call: what it returns, what it scanned, and that its effect is durable only through its commit |
| TxRetry.OutcomeExactly | services/wallet-service/internal/repo/postgres.go:127-159 | an attempt returns nil exactly when none of its calls failed, and otherwise the code of the first call that did |
| TxRetry.RetriableAttempt | services/wallet-service/internal/repo/postgres.go:95-99 | an attempt is retriable exactly when its first failing call, whichever it is, met a domain VERSION_CONFLICT or a non-timeout 40001, 40P01 or P0 error naming VERSION_CONFLICT |
| TxRetry.PgWalletRepo.WithTx | services/wallet-service/internal/repo/postgres.go:85-111 | at most txMaxRetries + 1 attempts; goes on exactly while the first failing call of an attempt met a conflict and the context lives; returns nil exactly when no call of the last attempt failed, and otherwise that call's error |
| TxRetry.RetriableMeansRolledBack | services/wallet-service/internal/repo/postgres.go:95-100 | an attempt that may be retried left nothing durable, so a commit of unknown outcome is never rerun |
| TxRetry.LostReplyIsNotRetried | services/wallet-service/internal/repo/postgres.go:155-157 | a commit that took effect although its reply was lost stays durable and is not run again |
| TxRetry.AtMostOneEffect | services/wallet-service/internal/repo/postgres.go:73-79 | a call's effect is durable at most once and only through its last attempt, exactly once on a nil return |
| TxRetry.SuccessAppliesFnOnce | services/wallet-service/internal/repo/postgres.go:73-79 | for any state transition, a nil return leaves it applied exactly once on top of the other sessions' effects |
| TxRetry.WaitBounds | services/wallet-service/internal/repo/postgres.go:101-109 | n backoffs wait at least 5n(n+1)/2 ms and less than 5n(n+3)/2 ms |
| TxRetry.WaitExactly | services/wallet-service/internal/repo/postgres.go:101-104 | the backoff after attempt k can be any time from 5(k+1) ms up to 5(k+2) ms, and no other |
| TxRetry.SuccessScansLast | services/wallet-service/internal/repo/postgres.go:152-158 | a nil return means the last attempt scanned the last row |
| TxRetry.TopupIsFresh | services/wallet-service/internal/repo/postgres.go:258-267 | a topup returns the row of the attempt that committed |
| TxRetry.TransferIsFresh | services/wallet-service/internal/repo/postgres.go:299-309 | a transfer does |
| TxRetry.WithdrawIsFresh | services/wallet-service/internal/repo/postgres.go:337-346 | a withdrawal does |
| TxRetry.MerchantWithdraw | services/wallet-service/internal/repo/postgres.go:350-387 | the result is what the closure's assignments make of the rows scanned by all attempts |
| TxRetry.MerchantResultFields | services/wallet-service/internal/repo/postgres.go:366-386 | every field of the result: status and amounts are the committed row's, the transaction id and the uuid those of the last attempt that scanned one |
| TxRetry.MerchantResultFreshExactly | services/wallet-service/internal/repo/postgres.go:373-378 | that is the committed row's own result exactly when, for each optional field, that row has it or no earlier attempt had scanned it |
| TxRetry.MerchantReportsRolledBackTransaction | services/wallet-service/internal/repo/postgres.go:366-378 | a concrete call that reports a rolled-back transaction id |
| Statement.DescendingIsSorted | services/wallet-service/internal/repo/transaction.go:191 | the scan is strictly descending and holds each matching leg once |
| Statement.PageSplitsScan | services/wallet-service/internal/repo/transaction.go:187-192 | a scan is its first page followed by the scan below that page's last key |
| Statement.FollowIsScan | services/wallet-service/internal/http/dto/transaction.go:89-93 | following the cursor equals the single sorted scan exactly when the compared limit is at most 200 or one page holds everything |
| Statement.UnclampedLimitTruncates | services/wallet-service/internal/http/dto/manual_je.go:170-173 | with limit 201 a listing of 201 entries stops after 200 |
| Statement.GrowingReadMissesNothing | services/wallet-service/internal/http/dto/transaction.go:89-93 | while legs are added between pages no leg is returned twice and none present at the start is missed |
| Statement.NewerLegsDoNotShow | services/wallet-service/internal/http/dto/transaction.go:89-93 | legs added above the existing ones leave the result unchanged |
| Statement.SelectRows | services/wallet-service/internal/repo/transaction.go:180-193 | the page query returns the greatest keys below the cursor, descending |
| Statement.ListTransactions | services/wallet-service/internal/repo/transaction.go:169-228 | one page of at most 200 legs, which ones in leg fields; not-found exactly for an empty page of an unknown account |
| Statement.PageInFields | services/wallet-service/internal/repo/transaction.go:180-193 | a page in leg fields: legs of the account within the dates and below the cursor, newest first; a qualifying leg is missing only when the page is full of newer ones |
| Statement.TxListRespFrom | services/wallet-service/internal/http/dto/transaction.go:72-95 | all entries in order, and the last key as cursor exactly for a full page |
| Statement.ReadStatement | services/wallet-service/internal/http/handler/transaction.go:63-76 | a client following the cursor reads exactly the account's legs within the dates, newest first, each once, and stops; the answer is not-found exactly when the account does not exist |
| Retention.Retention.PurgeBatch | db/export/schema.sql:4010-4053 | one transaction deletes up to the batch size of SENT rows older than its cutoff and nothing else; exactly when it succeeds and what it reports |
| Retention.Retention.BatchInFields | db/export/schema.sql:4044-4050 | a batch in row fields: it selects min(batch size, number) of the rows that are SENT with a stamp before its cutoff, and deletes exactly those unless the call, its arguments, the statement or the commit fails |
| Retention.Retention.Purge | services/wallet-service/internal/janitor/retention.go:145-164 | the loop ends, exactly at the first cancellation, failed or short batch; its total counts the rows that were old before and are gone from the table after; a nil return leaves no old row exactly when the last selection was not cut |
| Retention.Retention.StopsExactly | services/wallet-service/internal/janitor/retention.go:145-164 | every batch before the last deleted its full size; a nil return follows the first that deleted fewer, an error a cancelled context or the first failed batch |
| Retention.Retention.NilReturnExactly | services/wallet-service/internal/janitor/retention.go:160-162 | in row fields: after a nil return no SENT row below the last cutoff is left exactly when the last selection was not cut by the batch size |
| Retention.PurgedRows | services/wallet-service/internal/janitor/retention.go:145-149 | a batch that removes anything shrinks the rows below the run's largest cutoff, by exactly the rows it removed |
| Retention.OthersUntouched | db/export/schema.sql:4016-4021 | rows that are not SENT and old stay as they are |
| Retention.ShortBatchCanMislead | services/wallet-service/internal/janitor/retention.go:160-162 | a whole run that returns nil and 0 with an old row left, because another janitor deleted its selection first |
| Retention.RunAges | services/wallet-service/internal/janitor/retention.go:141-144 | between two batches any run of the relay whose open transactions are younger than the last cutoff only shrinks the rows below it, which is what the loop's termination and its total rest on |
| Retention.BatchIsPurgeStep | db/export/schema.sql:4044-4050 | a batch is a purge step of the relay's system and keeps every PENDING, FAILED and DEAD row |

## Left out

- RelaySystem.LockInvKept: a claim is one atomic step at statement level; the time between the snapshot and the row locks inside one SELECT is not modelled.
- Polling.PollingRelay.RunLoop: one worker's loop; several loops are put together in PollShutdown.WorkersDrain, where the wait group is the hypothesis that each loop has returned. Poll intervals are not modelled, and other sessions get the database at two points of a poll (while it publishes and after it ends), each time for any number of steps.
- PollShutdown.WorkersDrain: a worker's begin and claim follow each other directly, as its methods take them; RelayShutdown.StopDrains has steps of others between them.
- Cdc.CdcHandler.ConsumeClaim: one partition at a time with no polling batch open, as the two modes exclude each other; interleaved CDC marks are steps of RelaySystem. Delete events of the purge, which the consumer ignores, are not among the foreign messages.
- TxRetry.MerchantWithdraw: the closure's assignments are replayed over the scanned rows after the call instead of inside it.
- Retention.Retention.Purge: the idempotency-ledger purge is the same loop with another predicate and is not repeated.
- ServerArithmetic.DelayAgreesWithServer: for waits of 2^32 s (136 years) or more only one direction is stated; there the last bits of the double arithmetic decide case by case.
- RelaySystem.ClaimKeepsLocks: a fetch that fails after its query has locked rows is a begin and a rollback in the step system, without the moment in which its locks are held; OutboxRepo.ClaimBatch has it.
- Delivery of rows by Debezium itself, and so records behind CDC marks.
- Ordering of records per key across batches, which the relay does not promise.
- Header decoding, trace propagation, log text and `last_error`, which do not affect row state, and the audit columns a trigger fills.
- HTTP statuses and ISO 20022 tables beyond the retry classification.
- The posting procedures in PL/pgSQL, HTTP plumbing, authentication and PII handling.
- The EOD scheduler, the partition and withdrawal janitors, and balance queries.
- Kafka, pgx, OpenTelemetry and environment parsing: only their outcomes appear, as parameters.
