# Verified model of Kestrel's stateful core

A Dafny model of the parts of Kestrel whose correctness depends on many steps taken together, with
proofs over all inputs and all runs. `dafny verify dfyconfig.toml` checks everything.

- **AI budget ledger** (`BudgetLedger`, `BudgetStore`, `Retention`): a counter per user and day and a
  row per reservation, under any interleaving of reserve, reconcile, release, stale recovery and
  retention, with failing and unacknowledged transactions, and the handle a turn holds.
- **Persistence outbox** (`Outbox`, `OutboxStore`): the lease protocol of the replay workers, with
  crashes, late marks, re-enqueues and retention.
- **Metrics export** (`MetricKeys`, `MetricsRegistry`, `RemoteWrite`, `MetricsExport`, `Wire`, `Utf8`):
  registry keys and histograms, and the hand-written protobuf encoder with a decoder that inverts it.
- **Provider health and failover** (`Health`, `Failover`, `StableSort`), **cron lock and scheduler**
  (`CronLock`, `Scheduler`).
- **Numeric loops** (`Rrf`, `Indicators`): fusion of rankings, moving averages, MACD, RSI and ATR.

`Common` and `MapSum` hold shared vocabulary and sums over maps.

## How it is built

A protocol is a pure `Step` on a `World` and a run is `Exec` over a list of events; every step writes
one log entry, so statements about runs are statements about the log. The code itself is a class whose
methods change fields as the program does, and each method's contract ties its new state to that
`Step`. Where the code awaits between two transactions, the method takes the events of other clients
as a parameter and its contract names the resulting run. A transaction may commit, roll back, or
commit and lose its acknowledgement (`Fate`).

Modelling choices: a statement or transaction is atomic; there is one clock that never goes back;
random ids and tokens are fresh (an outbox row or token is named by its position in the log, and
`TryReserve` asks that its id is new); money is integer cents; prices and scores are `real`; doubles on
the wire are their 64 bits; shifts and masks are written as division and remainder, with `>>> 0` as
remainder modulo 2^32; strings are well-formed Unicode; `localeCompare` compares sort keys, which are
any function of the strings; `MetricName` values contain no `{`. The decoder reads varints of at most
ten bytes and 64 bits and timestamps as int64.

## What the proofs found

- The one-hour backoff cap of the outbox is never reached; the longest delay is 1024 seconds
  (`Outbox.BackoffNeverCaps`).
- Not every outbox row ends completed or dead. A row still can exactly when it is not pending with all
  its attempts used up (`Outbox.CanEndIff`), and a re-enqueue leaves it pending like that exactly when its
  attempts are used up and it is not completed (`Outbox.RequeueStrandsIff`): a dead row, or a row
  re-enqueued during its eighth attempt, whose own success is then fenced off (`Outbox.RequeueStrands`).
  A row in its eighth attempt ends only through that worker's mark, so a crash leaves it in the table for
  good (`Outbox.LastAttemptCrashSticks`, `Outbox.NotEveryRowEnds`).
- The replay loop counts a replay as completed although its mark was fenced off
  (`OutboxStore.CompletedCountsFencedMarks`).
- The start-up clean-up of cron rows does not release the idempotency lock for the next run of the day,
  as its comment says; it closes the day (`CronLock.ClosedForTheDay`).
- `reconcileBudget` in `packages/ai/src/budget-guard.ts` adjusts the counter of the day of the call but
  leaves the reservation open, so recovery subtracts it again. `BudgetLedger.BypassDrift` says exactly
  when the books still come out right, whatever other clients do in between: on the same day, when
  nothing was reserved or recovery finds the counter at 0; across midnight, when the turn cost nothing
  and nothing was reserved or the new day's books were empty at some time since; with the write
  swallowed, when the turn cost nothing.
- A provider without local samples and with any cross-instance failures scores exactly 0: the weighted
  sum 2^n − 1 is never below n.
- The failover runner re-throws the earliest error of the highest rank, not the first error as the head
  of its file says; the two agree exactly when no later error outranks the first
  (`Failover.FirstErrorThrownIff`).
- A timestamp survives the wire exactly when it is at least 0 and below 2^63, a record exactly when it is
  shorter than 2^32 bytes.
- A metric key can depend on the order in which its tags were written, exactly when two of their keys
  compare as equal and are not array indices (`MetricKeys.KeyIgnoresTagOrderIff`).
- A run that throws before its `try` blocks its job until the timer prunes the entry, and pruning a job
  that really has run for more than twice the timeout lets a second run start beside it.

## Model

| member | source | states |
|---|---|---|
| `BudgetLedger.Conservation` | packages/ai/src/cost.ts:206-257 | in every reachable state each (user, day) counter is the sum of its open reservations plus the actual cost of everything ever reconciled, purged rows included |
| `BudgetLedger.ClampNeverBites` | packages/ai/src/cost.ts:326-337 | every run gives the same tables and the same log with `GREATEST(0, …)` as without it |
| `BudgetLedger.CounterIsNeverMissing` | packages/ai/src/cost.ts:336 | no run ever reaches the "daily budget counter missing" errors |
| `BudgetLedger.StepKeepsBooks` | packages/ai/src/cost.ts:303-393 | any one transaction keeps the books balanced for all accounts, is unaffected by the clamp and finds its counter |
| `BudgetLedger.ExecKeepsBooks` | packages/ai/src/cost.ts:303-432 | the same over runs from any balanced state |
| `BudgetLedger.OpenIsCovered` | packages/ai/src/cost.ts:374-382 | an open reservation never exceeds its counter |
| `BudgetLedger.OpenAfterPurge` | packages/db/src/retention.ts:190-194 | retention changes no account's held cents |
| `BudgetLedger.AdmissionIsByBalance` | packages/ai/src/cost.ts:200-217 | a reservation is granted if and only if held plus spent plus the estimate fits the cap, also on the unguarded insert of a day's first one |
| `BudgetLedger.ReserveInDollars` | packages/ai/src/cost.ts:179-217 | in every reachable state, for amounts in dollars: the reservation holds the least whole cents covering the estimate, none below 0, and is opened if and only if what the counter shows plus these does not pass the least whole cents covering the cap; the counter rises by them, no other counter moves |
| `BudgetLedger.ReserveWithoutCents` | packages/ai/src/cost.ts:195-199 | an amount that is infinite or NaN changes nothing |
| `BudgetLedger.ReconcileInDollars` | packages/ai/src/cost.ts:308-350 | an open reservation ends reconciled with the whole cents nearest to the cost in dollars, halves up, none below 0; its counter moves by the difference and no other does |
| `BudgetLedger.ReleaseInCents` | packages/ai/src/cost.ts:354-393 | an open reservation ends released, its counter lower by exactly what it held |
| `BudgetLedger.PurgeTakesIff` | packages/db/src/retention.ts:190-194 | a purge takes a row if and only if it is in the batch and was resolved before the cutoff |
| `BudgetLedger.BoundedOvershoot` | packages/ai/src/cost.ts:179-217 | with caps of at most `cap`, the counter stays between 0 and `cap` plus what reconciliations cost above their estimates |
| `BudgetLedger.OvershootStep` | packages/ai/src/cost.ts:303-351 | one transaction keeps that bound |
| `BudgetLedger.StepAccounts` | packages/ai/src/cost.ts:303-393 | one transaction keeps the count of openings and resolutions of an id in step with its row |
| `BudgetLedger.CounterIsFlow` | packages/ai/src/cost.ts:206-217 | in every reachable state a counter is the sum over the log of reserved, actual − reserved and −reserved cents |
| `BudgetLedger.EffectOnCounter` | packages/ai/src/cost.ts:326-337 | a counter is what all other transactions made it, plus the effect of a reservation's resolution on the account it was opened for and on no other |
| `BudgetLedger.ExactlyOnce` | packages/ai/src/cost.ts:298-393 | in any interleaving of duplicate reconcile, release and recovery, a reservation is resolved at most once, after it was opened, for the amount opened; its later effect on the counter is 0, actual − reserved or −reserved, and the counter is that plus what the others did |
| `BudgetLedger.OpenUntilResolved` | packages/ai/src/cost.ts:323-324 | a row in the ledger is `reserved` if and only if nothing has resolved it |
| `BudgetLedger.BypassDrift` | packages/ai/src/budget-guard.ts:84-100 | the path that adjusts the counter without the ledger, then anything other clients do, then stale recovery: the books of the reservation's day and of the day of the write are right if and only if, with the write swallowed, the turn cost nothing; with it on the same day, nothing was reserved or recovery finds the counter at 0; with it on another day, the turn cost nothing, and nothing was reserved or that day's books were empty at some time since |
| `BudgetLedger.BypassLeaves` | packages/ai/src/cost.ts:263-280 | for every delta, day and continuation, all other counters are right and the one written to is off by minus the delta, cut to the least that was owed since |
| `BudgetLedger.TroughIsZeroIff` | packages/ai/src/cost.ts:272-279 | that least amount is 0 if and only if nothing was held or spent at some time |
| `BudgetLedger.RunKeepsLag` | packages/ai/src/cost.ts:326-337 | any run from books that are right but for one account keeps them so, the deficit never growing and cut by each clamp to what is still owed |
| `BudgetStore.Store.TryReserve` | packages/ai/src/cost.ts:169-257 | the new tables are those of the reserve step; granted exactly when a row was opened; the reported spend and cap on every path, the non-finite one included |
| `BudgetStore.Store.Reconcile` | packages/ai/src/cost.ts:303-351 | the reconcile step, and true, false or a throw as that step went |
| `BudgetStore.Store.Release` | packages/ai/src/cost.ts:354-393 | the release step, and true, false or a throw as that step went |
| `BudgetStore.Store.PurgeResolved` | packages/db/src/retention.ts:190-194 | a retention pass is a purge step that takes only resolved rows past the cutoff, and takes all of them when it took fewer than a batch |
| `BudgetStore.Store.RecoverStale` | packages/ai/src/cost.ts:403-432 | with other clients between its transactions: `released` and `failed` are the rows whose own release answered true, or threw; on balanced books `failed` is the number of transactions that did not commit with an acknowledgement; scanned rows are closed unless their own release rolled back |
| `BudgetStore.ReleaseAnswerIff` | packages/ai/src/cost.ts:421-423 | on balanced books a release throws only when its own transaction does, and answers true if and only if it commits on a row that is still open |
| `BudgetStore.ReconcileAnswerIff` | packages/ai/src/cost.ts:308-350 | on balanced books a reconciliation answers true if and only if it settles an open row, and throws only on a cost that is infinite or NaN |
| `BudgetStore.OnlyFatesFail` | packages/ai/src/cost.ts:417-431 | whoever interferes, the rows that throw are those whose own transactions did |
| `BudgetStore.InterleavedCloses` | packages/ai/src/cost.ts:419-431 | after recovery, whatever others did, each scanned row is closed unless its transaction rolled back |
| `BudgetStore.QuietRowsStayOpen` | packages/ai/src/cost.ts:405-431 | with nobody else running, each row is still open when its turn comes and a committed release of it answers true |
| `BudgetStore.ResolvedStaysResolved` | packages/ai/src/cost.ts:324 | a resolved reservation never becomes open again |
| `BudgetStore.HandleRunsTrace` | packages/ai/src/budget-reservation.ts:95-151 | what a handle and everyone else do is a run of ledger events |
| `BudgetStore.ReleasedIsResolved` | packages/ai/src/budget-reservation.ts:95-151 | a handle that says `released` has no open reservation |
| `BudgetStore.HandleSettlesOnce` | packages/ai/src/budget-reservation.ts:95-151 | for any mix of a handle's repeated, failing or unacknowledged calls with other clients: one resolution at most, effect on the counter 0, actual − reserved or −reserved on top of what the others did, and exactly one resolution once `released` is set |
| `BudgetStore.Handle.Reconcile` | packages/ai/src/budget-reservation.ts:104-126 | `released` is set only when the call returned; a released handle sends nothing |
| `BudgetStore.CallReleasesIff` | packages/ai/src/budget-reservation.ts:104-150 | a call sets `released` if and only if it is acknowledged and its cost, if any, is finite; a released handle sends nothing |
| `BudgetStore.Handle.Release` | packages/ai/src/budget-reservation.ts:127-150 | the same for release |
| `BudgetStore.ReserveTurnBudget` | packages/ai/src/budget-reservation.ts:66-151 | a fresh open handle with the estimate, the spend and the cap exactly when a reservation was opened, otherwise the budget error with the spend and the cap |
| `Retention.DeleteBatchedWhere` | packages/db/src/retention.ts:109-130 | deletes only matching rows, at most batches × size, counts them exactly, and leaves none matching when the total is below that bound |
| `Outbox.StepKeepsOk` | packages/ai/src/persistence-recovery.ts:66-149 | every claim, mark, re-enqueue, purge or tick keeps the whole invariant: leases, fencing, backoff and each row's standing in the log |
| `Outbox.LeaseExclusion` | packages/ai/src/persistence-recovery.ts:76-106 | two claims of a row with no effective mark between them are more than five minutes apart |
| `Outbox.ClaimedIff` | packages/ai/src/persistence-recovery.ts:76-106 | in every reachable state a claim takes a row if and only if it is there, neither completed nor dead, claimed fewer than eight times, due, and each claim of it is marked or more than five minutes old; it then is the next attempt of eight |
| `Outbox.CrashedIsTakenOver` | packages/ai/src/persistence-recovery.ts:79-86 | the row of a worker that never marks it is taken by the next claim if and only if five minutes have passed, as long as attempts are left |
| `Outbox.RowTimes` | packages/ai/src/persistence-recovery.ts:89-106 | when a row was created, was last touched and is due, read off the log: due on insertion, on its latest re-enqueue, or a backoff after its latest failure |
| `Outbox.PurgeTakesIff` | packages/db/src/retention.ts:185-189 | a purge takes a row if and only if it is in the batch, finished, and was last touched before the cutoff |
| `Outbox.MarkIsFenced` | packages/ai/src/persistence-recovery.ts:121-148 | a mark takes effect if and only if the row still exists and was not claimed, marked or re-enqueued since the claim; otherwise it changes no row |
| `Outbox.NoLostRequeue` | packages/ai/src/persistence-outbox.ts:68-76 | a completion or failure after a re-enqueue belongs to a claim made after that re-enqueue |
| `Outbox.AttemptsAreClaims` | packages/ai/src/persistence-recovery.ts:90-99 | `attempt_count` is the number of claims of the row, and no row, purged or not, is claimed more than eight times |
| `Outbox.DeadIsNeverClaimed` | packages/ai/src/persistence-recovery.ts:137 | a dead row has used all attempts, so that no later re-enqueue leads to a claim |
| `Outbox.CompletedIsFinal` | packages/ai/src/persistence-outbox.ts:71 | while a completed row exists it stays completed with the same attempts |
| `Outbox.NothingIsDropped` | packages/db/src/retention.ts:185-189 | a row leaves the table, or is completed or dead, only after a mark that succeeded or that failed the eighth attempt |
| `Outbox.CanEndIff` | packages/ai/src/persistence-recovery.ts:76-86 | from any reachable state some continuation completes a row or makes it dead, if and only if the row is not pending with all its attempts used up |
| `Outbox.RequeueStrandsIff` | packages/ai/src/persistence-outbox.ts:71 | a re-enqueue brings a row into that state if and only if its attempts are used up and it is not completed |
| `Outbox.RequeueStrands` | packages/ai/src/persistence-outbox.ts:71 | runs in which the eighth attempt is still in progress, or has made the row dead, when the row is re-enqueued: whatever follows, a successful replay included, it stays pending |
| `Outbox.StrandedForever` | packages/ai/src/persistence-recovery.ts:76-86 | a pending row with all attempts used up stays exactly that, and is never purged |
| `Outbox.LastAttemptCrashSticks` | packages/ai/src/persistence-recovery.ts:76-86 | a row in its last attempt whose worker never marks it is never claimed, completed, dead or purged |
| `Outbox.NotEveryRowEnds` | packages/ai/src/persistence-recovery.ts:76-86 | a concrete run of seven failures and a crash in the eighth attempt, after which no continuation without that worker's mark completes the row or makes it dead |
| `Outbox.RetryWaitsForBackoff` | packages/ai/src/persistence-recovery.ts:134-148 | a failed row that nobody re-enqueues is not claimed before its backoff has passed |
| `Outbox.BackoffNeverCaps` | packages/ai/src/persistence-recovery.ts:135 | the delay is 1, 2, 4 … 1024 seconds: nondecreasing and always below the one-hour cap |
| `OutboxStore.Store.EnqueueFailure` | packages/ai/src/persistence-outbox.ts:48-92 | the enqueue step: a new pending row, or an existing one back to pending unless completed, its lease untouched; false exactly when the database call failed |
| `OutboxStore.Store.ClaimOne` | packages/ai/src/persistence-recovery.ts:66-119 | claims the claimable unlocked row that has been due longest, or answers none exactly when there is none |
| `OutboxStore.Store.AttemptClaim` | packages/ai/src/persistence-recovery.ts:66-119 | the claim, with a transaction that may roll back or lose its acknowledgement: it then throws, and in the second case the row stays claimed |
| `OutboxStore.Store.MarkCompleted` | packages/ai/src/persistence-recovery.ts:121-132 | the complete step, and a completed row when the token still held |
| `OutboxStore.Store.MarkFailed` | packages/ai/src/persistence-recovery.ts:134-149 | the fail step; a completed row is left alone |
| `OutboxStore.Store.Settle` | packages/ai/src/persistence-recovery.ts:210-225 | exactly the marks of the round, in order, and how it ends; a replay that threw leaves the row failed, or dead at the last attempt, due after 1000 ms times 2^min(attempt − 1, 10); a completion that reached the database survives the failure mark of a lost acknowledgement |
| `OutboxStore.RoundLeaves` | packages/ai/src/persistence-recovery.ts:209-217 | if the token still held after the replay, the row ends completed, failed, dead or in progress as the replay and the fates of the marks say, due after the backoff; otherwise no row changes |
| `OutboxStore.RoundCounts` | packages/ai/src/persistence-recovery.ts:207-217 | each claim adds 1 to `claimed` and, unless the failure mark threw, 1 to `completed`, `failed` or, at the eighth attempt, `dead` |
| `OutboxStore.RoundStops` | packages/ai/src/persistence-recovery.ts:205-206 | a round without an item ends the loop: the claim threw, or nothing unlocked could be claimed |
| `OutboxStore.OnlyWorkingRoundsComplete` | packages/ai/src/persistence-recovery.ts:210-213 | the loop marks a row as completed only after a replay that worked and a mark that reached the database |
| `OutboxStore.EndingAgrees` | packages/ai/src/persistence-recovery.ts:213-217 | each counted ending agrees with the status its mark left, but for a completion whose acknowledgement was lost |
| `OutboxStore.PickIsLongestDue` | packages/ai/src/persistence-recovery.ts:87 | a claimed row has been due no less long than any other, and is no younger among equals |
| `OutboxStore.Store.ReplayFailures` | packages/ai/src/persistence-recovery.ts:194-229 | the new state, the counters and the way it stops are those of playing the rounds one by one with correct answers of the claim query, until the limit, an empty answer, or a claim or failure mark that throws |
| `OutboxStore.PlayIsARun` | packages/ai/src/persistence-recovery.ts:206-226 | the database effects of the loop, in order, are a run of the protocol |
| `OutboxStore.EveryClaimIsCounted` | packages/ai/src/persistence-recovery.ts:206-218 | completed + failed + dead is the number claimed, less one if a failure mark threw, which ends the loop |
| `OutboxStore.TokensAreItsClaims` | packages/ai/src/persistence-recovery.ts:66-119 | the loop's tokens are its own claims, in order, of the rows its rounds picked |
| `OutboxStore.CompletedCountsFencedMarks` | packages/ai/src/persistence-recovery.ts:212-213 | `completed` counts every replay whose mark was acknowledged; the mark took effect if and only if the row was still there and untouched since the claim |
| `OutboxStore.CompletedCanBePending` | packages/ai/src/persistence-recovery.ts:212-213 | a re-enqueue during a replay leaves the row pending although it was counted as completed |
| `OutboxStore.CountedButPending` | packages/ai/src/persistence-recovery.ts:206-213 | such a run from an empty table |
| `Utf8.RoundTrip` | packages/shared/src/metrics-export.ts:270 | the UTF-8 bytes of a string decode to it |
| `Wire.VarintRoundTripIff` | packages/shared/src/metrics-export.ts:238-255 | a base-128 varint reads back, whatever follows it, if and only if it fits 64 bits |
| `Wire.Varint64RoundTripIff` | packages/shared/src/metrics-export.ts:247-255 | a timestamp reads back as int64 if and only if it is at least 0 and below 2^63 |
| `Wire.LittleEndianRoundTrip` | packages/shared/src/metrics-export.ts:263-268 | the eight bytes of a double give back its bits |
| `Wire.BytesFieldRoundTripIff` | packages/shared/src/metrics-export.ts:257-261 | a length-delimited record reads back if and only if its length is below 2^32 |
| `Wire.DoubleFieldRoundTrip` | packages/shared/src/metrics-export.ts:263-268 | a double field reads back bit for bit |
| `Wire.LabelRoundTrip` | packages/shared/src/metrics-export.ts:294-297 | a Label message decodes to its name and value |
| `Wire.SampleReads` | packages/shared/src/metrics-export.ts:299-303 | what a Sample message decodes to for every timestamp, negative or too large ones included |
| `Wire.SampleRoundTripIff` | packages/shared/src/metrics-export.ts:299-303 | a Sample message decodes to its bits and timestamp if and only if the timestamp is at least 0 and below 2^63 |
| `Wire.ReadFieldsAppend` | packages/shared/src/metrics-export.ts:257-261 | a record appended to bytes that read as fields appends that one field |
| `Wire.LabelsRoundTrip` | packages/shared/src/metrics-export.ts:360-370 | the labels of a series decode in order |
| `Wire.SeriesRoundTrip` | packages/shared/src/metrics-export.ts:358-376 | a TimeSeries message decodes to its labels and samples in order |
| `Wire.RequestRoundTrip` | packages/shared/src/metrics-export.ts:356-377 | a whole WriteRequest decodes to exactly the series that were encoded |
| `Wire.Buffer.ProtoVarint` | packages/shared/src/metrics-export.ts:238-245 | the shifting loop appends the varint of the value modulo 2^32 |
| `Wire.Buffer.ProtoVarint64` | packages/shared/src/metrics-export.ts:247-255 | the loop appends the varint, or the low byte of a negative value |
| `Wire.Buffer.ProtoBytes` | packages/shared/src/metrics-export.ts:257-261 | appends tag, length and data |
| `Wire.Buffer.ProtoDouble` | packages/shared/src/metrics-export.ts:263-268 | appends tag and little-endian bits |
| `Wire.Buffer.EncodeLabel` | packages/shared/src/metrics-export.ts:294-297 | appends the two fields of a label |
| `Wire.Buffer.EncodeSample` | packages/shared/src/metrics-export.ts:299-303 | appends value field, timestamp tag and timestamp |
| `Wire.EncodeSeries` | packages/shared/src/metrics-export.ts:358-375 | nested buffers produce the TimeSeries bytes |
| `Wire.EncodeRequest` | packages/shared/src/metrics-export.ts:356-377 | nested buffers produce the request bytes |
| `RemoteWrite.CollectHistogram` | packages/shared/src/metrics-export.ts:333-349 | the 22 series of one key: a bucket for each of the registry's bounds with 0 for a missing one, the `+Inf` bucket and five summary series, each with the parsed labels |
| `RemoteWrite.DecimalRoundTrip` | packages/shared/src/metrics-export.ts:336 | the `le` label of a bucket reads back as the bound |
| `RemoteWrite.HistogramsRequestAt` | packages/shared/src/metrics-export.ts:330-350 | the 22 series of each histogram stand together, in the order of the histograms |
| `RemoteWrite.SummaryReports` | packages/shared/src/metrics-export.ts:333-349 | the 22 series of a summary are, by position, the counts of observations at most each bound, all of them, their sum, mean, least and greatest |
| `RemoteWrite.ExportRegistry` | packages/shared/src/metrics-export.ts:313-377 | snapshot and export together: the receiver decodes every counter and, for each key and each `le`, the number of observations at most that bound |
| `MetricsExport.RecordAll` | packages/shared/src/metrics.ts:135-163 | after any calls, the registry holds, for exactly the keys used, the sum of the increments and the list of finite observations |
| `MetricsExport.RecordAndExport` | packages/shared/src/metrics-export.ts:313-377 | from calls on printable metrics to the receiver: for every metric ever counted or measured, its name, the job and its tags with the sum, or with the bucket counts and summary, of what was recorded under its key |
| `MetricsExport.SameKeyIff` | packages/shared/src/metrics.ts:117-123 | printable metrics without ties share a key if and only if they have the same name and tags |
| `RemoteWrite.SnapshotToRemoteWrite` | packages/shared/src/metrics-export.ts:313-377 | the receiver decodes exactly the pending series, in order, whenever the format can carry them: first one per counter, then 22 per histogram, each with name, job, tags in order, and one sample |
| `RemoteWrite.RequestReads` | packages/shared/src/metrics-export.ts:356-376 | each series starts with the labels `__name__` and `job`, then has the tags in order and one sample with the bits of the number and the time |
| `RemoteWrite.BoundReads` | packages/shared/src/metrics-export.ts:333-338 | a bucket has the metric's name with `_bucket` and a last label `le` that reads back as the bound |
| `RemoteWrite.ExportRoundTrip` | packages/shared/src/metrics-export.ts:313-377 | end to end: the receiver decodes, for each metric as callers named it, its name, the job and its own sorted tags with the recorded numbers |
| `MetricKeys.SplitJoin` | packages/shared/src/metrics-export.ts:286 | splitting on a comma undoes joining with it |
| `MetricKeys.ParseSnapshotKey` | packages/shared/src/metrics-export.ts:277-292 | the loop returns the name and the labels with a nonempty key, in order |
| `MetricKeys.KeyRoundTripIff` | packages/shared/src/metrics-export.ts:277-292 | parsing a printed key gives back the name and the sorted tags if and only if every tag has a nonempty key without `,` or `=` and a value without `,` |
| `MetricKeys.KeyIgnoresTagOrder` | packages/shared/src/metrics.ts:117-123 | without ties in the comparison, the key does not depend on the order in which the tags were written |
| `MetricKeys.KeyIgnoresTagOrderIff` | packages/shared/src/metrics.ts:117-123 | for well-formed tags the key is the same for every order of writing if and only if no two different tags compare as equal, array-index keys apart, which `Object.entries` orders itself |
| `MetricKeys.TieKeepsOrder` | packages/shared/src/metrics.ts:119-121 | of tags that tie, the one written first is printed first |
| `MetricKeys.ArrangedAscends` | packages/shared/src/metrics.ts:119-121 | the tags of a key ascend by sort key; array indices that compare as equal come first, by number |
| `MetricKeys.StrLeIff` | packages/shared/src/metrics.ts:121 | sort keys compare by their first difference, a shorter one first |
| `MetricKeys.KeyIsInjective` | packages/shared/src/metrics.ts:117-123 | two metrics share a key only if name and tags are the same |
| `MetricsRegistry.BucketsAreCumulative` | packages/shared/src/metrics.ts:113-114 | buckets grow with the bound and never pass the count |
| `MetricsRegistry.SplitCounts` | packages/shared/src/metrics.ts:142-163 | bucket counts and totals add up over any split of the history |
| `MetricsRegistry.Accumulator.Add` | packages/shared/src/metrics.ts:153-162 | the fields stand for the history with one more value: count, sum, least, greatest and all sixteen buckets |
| `MetricsRegistry.Accumulator.Summarise` | packages/shared/src/metrics.ts:171-181 | the summary is that of exactly the values seen |
| `MetricsRegistry.Registry.Increment` | packages/shared/src/metrics.ts:135-139 | only the counter of this key changes, by the amount |
| `MetricsRegistry.Registry.Observe` | packages/shared/src/metrics.ts:142-163 | a finite value is appended to the history of its key and of no other; a non-finite one changes nothing |
| `MetricsRegistry.Registry.Snapshot` | packages/shared/src/metrics.ts:166-184 | every series with the summary of its whole history |
| `Health.TrimmedIsTheWindow` | packages/data/src/health.ts:80-86 | on chronological samples exactly those older than five minutes are dropped |
| `Health.RecordedInOrder` | packages/data/src/health.ts:101-121 | under a clock that does not go back, a provider's samples are chronological |
| `Health.VisitLeavesWindow` | packages/data/src/health.ts:80-121 | under such a clock, the list that any recording or look leaves is exactly what was ever recorded for the provider within the last five minutes, in order |
| `Health.InWindowHas` | packages/data/src/health.ts:80-86 | that window has exactly the samples of the last 300000 ms |
| `Health.ScoreLaw` | packages/data/src/health.ts:285-308 | without cross-instance failures the score is max(0, 1 − (e + 2^k − 1)/n) for k trailing and e earlier failures among n samples |
| `Health.ScoreLawMerged` | packages/data/src/health.ts:285-307 | for every cross-instance count: with c the greater of it and of the trailing failures, the score is max(0, 1 − W/n), where a failure p places from the end weighs 2^(c−1−p), or 1 from c places on |
| `Health.MoreFailuresElsewhere` | packages/data/src/health.ts:289 | a higher cross-instance count never raises the score |
| `Health.LastFailureWeighs` | packages/data/src/health.ts:300-307 | when the last sample is a failure the score is at most max(0, 1 − 2^(c−1)/n) |
| `Health.ScoreWithoutSamples` | packages/data/src/health.ts:274-283 | without local samples the score is 0.5, or 0 once another instance reports a failure |
| `Health.ScoreInRange` | packages/data/src/health.ts:267-308 | the score lies in [0, 1] for every cross-instance count |
| `Health.FailureNeverRaises` | packages/data/src/health.ts:267-308 | with no sample expiring, one more failure never raises the score, for every cross-instance count |
| `Health.SuccessNeverLowers` | packages/data/src/health.ts:267-308 | with no sample expiring, one more success never lowers it |
| `Health.HealthStore.Trim` | packages/data/src/health.ts:80-86 | the head of the list up to the first sample in the window is removed, other providers untouched |
| `Health.HealthStore.Record` | packages/data/src/health.ts:101-121 | appends the sample and trims |
| `Health.HealthStore.ConsecutiveFailures` | packages/data/src/health.ts:92-99 | counts the trailing failures |
| `Health.HealthStore.GetHealth` | packages/data/src/health.ts:234-251 | counts and failure rate of the trimmed window |
| `Health.HealthStore.GetScore` | packages/data/src/health.ts:267-308 | the score of the trimmed window |
| `Health.HealthStore.ScoreOf` | packages/data/src/health.ts:273-308 | the weighted loops compute the score; with no local samples and a cross-instance count of at least 1 it is 0 |
| `Failover.TryOrderIsUnique` | packages/data/src/failover.ts:74-84 | pinned first in caller order, the rest by descending score with caller-order ties: there is only one such order |
| `Failover.TryOrder` | packages/data/src/failover.ts:74-84 | the partition and the sort produce that order |
| `Failover.RunWithFailover` | packages/data/src/failover.ts:60-121 | the first success in the order, or the first bug re-thrown, or the earliest error of the highest rank; a health sample for exactly the tried attempts that were not empty |
| `Failover.FirstErrorThrownIff` | packages/data/src/failover.ts:105-121 | when all failed, the first error is thrown if and only if no later one has a higher rank |
| `Failover.ThrownByCode` | packages/data/src/failover.ts:105-142 | when all failed, the first quota error is thrown, else the first HTTP or timeout error, else the first error |
| `Failover.OrderReads` | packages/data/src/failover.ts:74-84 | in the order, pinned attempts come first as given, then higher scores, ties as given |
| `Failover.DingsAre` | packages/data/src/failover.ts:97-109 | failures are recorded for exactly the tried attempts that were not empty, one each |
| `Failover.SecondErrorThrown` | packages/data/src/failover.ts:105-121 | a timeout followed by a quota error throws the quota error |
| `StableSort.Sort` | packages/data/src/failover.ts:83 | a stable descending order of all indices |
| `StableSort.SortedIsStable` | packages/shared/src/metrics.ts:119-121 | sorting by any comparison leaves elements that tie in the order they came |
| `CronLock.StepKeepsOk` | apps/worker/src/cron-lock.ts:74-129 | any statement on the row, in any order, keeps spacing, row and count in step |
| `CronLock.AcquisitionsAreSpaced` | apps/worker/src/cron-lock.ts:74-104 | two acquisitions for a job and day are more than two hours apart, the later one is a reclaim, and none follows a move out of `started` |
| `CronLock.AtMostTwelve` | apps/worker/src/cron-lock.ts:46 | at most twelve acquisitions for a job and day |
| `CronLock.ClosedForTheDay` | apps/worker/src/scheduler.ts:147-157 | once done, failed or cleaned up, the lock is not acquired again that day |
| `CronLock.CrashedHolderIsReplaced` | apps/worker/src/cron-lock.ts:74-88 | the row of a crashed holder is taken by exactly the attempts called more than two hours after it started and before the day ends |
| `CronLock.CleanupClosesIff` | apps/worker/src/scheduler.ts:147-157 | the start-up clean-up closes a row if and only if it has been running for more than five minutes |
| `CronLock.FinishCloses` | apps/worker/src/cron-lock.ts:109-127 | done and fail close the row whoever holds it |
| `CronLock.LockRow.Acquire` | apps/worker/src/cron-lock.ts:65-105 | the reclaim alone when it takes the row, otherwise the reclaim, whatever runs in between, and the insert; true exactly when the last of them took the row |
| `CronLock.AttemptTakesIff` | apps/worker/src/cron-lock.ts:65-105 | an attempt takes the lock if and only if the row is stale at first or missing at the insert |
| `CronLock.LockRow.TryReclaim` | apps/worker/src/cron-lock.ts:74-88 | the reclaim statement |
| `CronLock.LockRow.TryInsert` | apps/worker/src/cron-lock.ts:92-104 | the insert statement |
| `CronLock.LockRow.Close` | apps/worker/src/cron-lock.ts:107-129 | done and fail overwrite the status, whoever holds the lock |
| `CronLock.LockRow.CleanupStale` | apps/worker/src/scheduler.ts:147-157 | the start-up clean-up |
| `Scheduler.BookkeepingAgrees` | apps/worker/src/scheduler.ts:114-126 | at every await the running set is the key set of the start-time map |
| `Scheduler.StepStaysCoveredIff` | apps/worker/src/scheduler.ts:114-126 | one step breaks "each live run has its own entry, and no job has two runs" if and only if it prunes while a run is overdue |
| `Scheduler.NoTwoRunsOverlap` | apps/worker/src/scheduler.ts:170-256 | if every run is within twice the timeout whenever the timer fires, no two runs of a job overlap, even when runs throw outside their `try` |
| `Scheduler.StepStaysExactIff` | apps/worker/src/scheduler.ts:178-226 | one step leaves an entry without a live run, or a run without its entry, if and only if it throws outside the `try` or prunes an overdue run |
| `Scheduler.NoJobIsBlocked` | apps/worker/src/scheduler.ts:170-256 | without those, a job is marked as running exactly while a run of it is live |
| `Scheduler.ExitClearsIff` | apps/worker/src/scheduler.ts:192-255 | a way out of a run clears its entry if and only if it is not a throw outside the `try`; a throw in the `catch` block clears it |
| `Scheduler.LeakBlocksUntilPruned` | apps/worker/src/scheduler.ts:110-126 | the entry of a run that threw blocks its job until the timer first fires more than twice the timeout later, and never after |
| `Scheduler.PruneAdmitsOverlap` | apps/worker/src/scheduler.ts:114-126 | pruning an overdue run admits a second run, whose entry the first one clears whenever it reaches its `finally` |
| `Scheduler.Registry.BeginRun` | apps/worker/src/scheduler.ts:178-189 | a run is skipped exactly while its job is marked as running; otherwise its entry is made, also when it then throws |
| `Scheduler.CourseOfRun` | apps/worker/src/scheduler.ts:191-255 | whatever other runs and the timer do, a run goes where its own awaits lead it |
| `Scheduler.NoLockNoWork` | apps/worker/src/scheduler.ts:192-225 | a run that is not given the lock, at once or at the second attempt, never gets to its job |
| `Scheduler.LockOrTwoFailuresWork` | apps/worker/src/scheduler.ts:192-226 | a run works once it has the lock, or once both attempts at it have failed |
| `Scheduler.WorkIsRecorded` | apps/worker/src/scheduler.ts:236-255 | a job that ends well is recorded as done, one that fails or cannot be recorded as failed, and then the run is over |
| `Scheduler.Registry.ResumeRun` | apps/worker/src/scheduler.ts:191-255 | what a run does from each await to the next, on every reply and when a log call on the way throws, in the `catch` block or outside any `try` |
| `Scheduler.Registry.PruneStuck` | apps/worker/src/scheduler.ts:114-126 | the timer's loop drops exactly the entries older than twice the timeout |
| `Rrf.FusionExtends` | packages/ai/src/rag.ts:208-224 | one more occurrence updates the fused entries as the definition asks |
| `Rrf.Fuse` | packages/ai/src/rag.ts:205-225 | the mutable map holds, for each id that occurs and no other, the sum of 1/(60 + rank), and its earliest row of highest similarity, in order of first occurrence |
| `Rrf.RrfFuse` | packages/ai/src/rag.ts:205-232 | each id once, by descending score with first-seen ties, shown with its best row and 0.5 for a similarity that is not positive |
| `Rrf.SwapChangesNothing` | packages/ai/src/rag.ts:205-232 | which list comes first changes no id's score and no id's similarity |
| `Rrf.DecaySortCut` | packages/ai/src/rag.ts:92-95 | the tail returns the most similar decayed rows, sorted, ties in order; nothing cut beats anything kept |
| `Rrf.ContributionIs` | packages/ai/src/rag.ts:209-210 | a place counts 1/(60 + rank), a better one always more |
| `Rrf.ShownReads` | packages/ai/src/rag.ts:228-231 | a similarity that is not positive is shown as one half, a positive one as it is |
| `Rrf.DecayedReads` | packages/ai/src/rag.ts:235-243 | decay scales the similarity and nothing else; a factor up to 1 never raises a positive one |
| `Indicators.Sma` | packages/indicators/src/moving-averages.ts:27-42 | the rolling sum gives the mean of every window, after exactly period − 1 empty places |
| `Indicators.EmaBounds` | packages/indicators/src/moving-averages.ts:60-66 | an EMA value lies between the least and greatest value so far |
| `Indicators.EmaAffine` | packages/indicators/src/moving-averages.ts:60-66 | scaling and shifting the values scales and shifts the EMA |
| `Indicators.Ema` | packages/indicators/src/moving-averages.ts:49-68 | the loop computes the recursive definition, after exactly period − 1 empty places; (period + 1) times each value is (period − 1) times the one before plus twice the close |
| `Indicators.EmaInParts` | packages/indicators/src/moving-averages.ts:54-66 | the same of any numbers, from the mean of the first period on |
| `Indicators.MeanTimesCount` | packages/indicators/src/moving-averages.ts:34-40 | a mean times the number of values is their sum |
| `Indicators.EmaOfNumbers` | packages/indicators/src/macd.ts:66-80 | the same for raw numbers |
| `Indicators.Macd` | packages/indicators/src/macd.ts:33-63 | as long as the input; MACD exactly from slow − 1, signal and histogram exactly from slow + signal − 2; MACD is fast minus slow EMA, signal its EMA, histogram MACD minus signal; errors exactly on bad periods |
| `Indicators.MacdScales` | packages/indicators/src/macd.ts:33-80 | prices a·x + b give all three outputs times a |
| `Indicators.RsiIsGainShare` | packages/indicators/src/rsi.ts:57-61 | RSI is the share of gains in all movement in percent, 100 when nothing moves |
| `Indicators.RsiAtIsShare` | packages/indicators/src/rsi.ts:29-52 | each RSI value is that share of the Wilder averages of gains and losses up to its index |
| `Indicators.GainOrLoss` | packages/indicators/src/rsi.ts:33-36 | a move is a gain or a loss, and not both |
| `Indicators.RsiInRange` | packages/indicators/src/rsi.ts:57-61 | every RSI value lies in [0, 100] |
| `Indicators.RsiIsScaleFree` | packages/indicators/src/rsi.ts:25-61 | RSI is unchanged under a·x + b with a > 0 |
| `Indicators.Rsi` | packages/indicators/src/rsi.ts:25-55 | the loop computes Wilder's averages, empty exactly before index period |
| `Indicators.WilderBounds` | packages/indicators/src/atr.ts:43-50 | Wilder smoothing stays between the least and greatest value so far |
| `Indicators.TrueRangeCovers` | packages/indicators/src/atr.ts:29-41 | given high ≥ low, the true range spans the candle and the previous close |
| `Indicators.AtrBounds` | packages/indicators/src/atr.ts:23-54 | given high ≥ low, ATR lies between the least and greatest true range so far and is not negative |
| `Indicators.Atr` | packages/indicators/src/atr.ts:23-54 | the loops compute Wilder smoothing of the true ranges, empty exactly before period − 1 or everywhere up to `period` candles; period times each value is (period − 1) times the one before plus the true range |
| `Indicators.WilderInParts` | packages/indicators/src/atr.ts:43-50 | the same of any numbers, from the mean of the first period on |
| `Indicators.FirstTrueRange` | packages/indicators/src/atr.ts:32-35 | the first true range is the range of the candle |
| `Indicators.PadFront` | packages/indicators/src/util.ts:40-45 | that many empty places, then the series |

## Left out

- The database driver and SQL text, clock skew between application and database, and columns that no
  branch reads (payloads, notes, error texts, correlation ids).
- BudgetLedger.BypassDrift: the delta is actual − reserved in whole cents; what any other delta leaves,
  as the rounding of dollar differences can make it, is stated by BudgetLedger.BypassLeaves.
- BudgetStore.Store.RecoverStale: the answer of the recovery query is a parameter that must be a correct
  answer (the oldest stale rows, up to the limit), because the query runs in the database.
- OutboxStore.Store.ReplayFailures: whether a replay works is a parameter, because the dispatch to the
  replayed operations is outside this model; which rows concurrent claims have locked is one too.
- Retention.DeleteBatchedWhere: which of the matching rows a batch takes is up to the database; the count
  that a driver may fail to report is always reported here.
- OutboxStore.Store.ClaimOne: which of several rows that are due equally long is claimed is up to the
  database.
- Health.HealthStore.GetScore: the cross-instance failure count is a parameter; its cache and the health
  table behind it are not part of this model.
- Failover.RunWithFailover: scores and the outcome of each attempt are parameters and health writes are
  returned as a list, in order, instead of changing the store.
- CronLock.LockRow.Acquire: retention of `cron_runs` is not a step; a row that retention deleted on its
  own day could be inserted again, which its day-scale retention period rules out.
- Scheduler.NoTwoRunsOverlap: the job timeout is its default of two minutes; what is logged, the abort
  signal and the unknown-job branch are not modelled.
- Rrf.DecaySortCut: the decay factor of each row is given, because `exp` of the age is not modelled; the
  limit is not negative.
- Indicators.Macd: floating-point rounding is not modelled, here and in every other numeric loop.
- MetricsRegistry.Registry.Snapshot: numbers are reals, so that sums do not round, and the order of the
  entries is not stated.
- RemoteWrite.ExportRegistry: takes the keys as lists in the registry's iteration order, and the bits of
  each number from a function of it; so does MetricsExport.RecordAndExport.
- Wire.RequestRoundTrip: compression and the HTTP push come after it and are not modelled.
- Utf8.RoundTrip: lone surrogates, which the encoder replaces, are not strings of the model.
- `checkBudgetAlertsAndThresholds`, the model circuit breaker, the OTLP JSON export, Bollinger bands,
  regular-expression classifiers, model calls, authentication, encryption, environment parsing, the tick
  flush loop and the user interface: external services, library wrappers or finite case tables.
- Rate-limit counters, symbol catalogue, thread states and market phases: they would only add easy members.
