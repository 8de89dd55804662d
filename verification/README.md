# A model of the txoutbox lease-and-fence protocol

txoutbox is a transactional outbox. Producers insert rows into a table; any number of relay
workers claim rows under a lease, publish them, and write the verdicts back. The project models
the storage adapters, the relay round, whole systems of workers that share one table, and the
arithmetic of time around them, and proves the delivery guarantees over all inputs and all runs.

`dafny verify dfyconfig.toml` checks everything.

## How the model is built

* **`Rows.dfy`, `Claim.dfy`** give the table as a value: what one claim selects and changes, and
  the four fenced write-backs. All other files are measured against this specification. `strict`
  is the strict-ordering switch, `visibility` the minimum age of the Postgres adapter.
* **`MemoryStore.dfy`** is the in-memory adapter as it is coded: a class of record objects
  changed in place, the one-pass scan with its set of blocked keys, and `_owned` with its
  repetitions. Ids are positions, as the counter of the code makes them.
* **`SqlStore.dfy`** is the declarative selection (`NOT EXISTS`, `ORDER BY id LIMIT`), and the
  SQLite adapter as a class whose table is reassigned statement by statement. **`Deletion.dfy`**
  compares it with a storage that never deletes.
* **`Grouping.dfy`** is the split into ordering groups, with the list objects that the
  dictionary and the result share.
* **`Round.dfy`, `RoundStart.dfy`, `RoundOutcome.dfy`** describe a round as lanes, one per
  group, whose atomic steps interleave freely. The publisher's verdict, the time of a failure, the
  back-off and whether a report or a release reaches the table are given by an oracle.
  **`RoundVerdicts.dfy`** says what a whole round does to each row. **`RelayRound.dfy`** is the
  round as coded, with its shared list of acked ids and its counters, and refines the lanes.
* **`OutboxSystem.dfy`** has any number of rounds in flight over one table. Steps are: a producer
  insert, a claim, a lane step with any verdict, and the end of a round with or without its ack.
  Every step carries its own time, so no clock needs to be monotone; a crash is an end without
  ack; a stale worker is a round that goes on after its lease; every round has its own worker id
  and `max_attempts`. Tallies of claims, superseded claims and nacks are history that nothing in
  the system reads. **`Ordering.dfy`**, **`Accounting.dfy`** and **`Retries.dfy`** prove what every
  run keeps, **`Fencing.dfy`** when the fence holds (with a run that breaks it in
  **`SharedWorkerId.dfy`**), **`Leases.dfy`** and **`Punctuality.dfy`** what is gained when rounds meet
  their leases, **`LeaseBudget.dfy`** how the configuration makes them, and **`Draining.dfy`**
  progress. **`RoundsInSystem.dfy`** shows that a round left alone takes the table where the round
  as coded takes it. **`LateCommits.dfy`** carries the results over to inserts that commit late.
* **`Makespan.dfy`** and **`RoundTime.dfy`** (how long a round can take under the concurrency limit),
  **`Visibility.dfy`** (how old a row must be before a smaller id can no longer appear),
  **`BackoffPolicy.dfy`** and **`HeadOfLine.dfy`** (how long retries hold a key back) and
  **`Polling.dfy`** (when the loop sleeps) are the timing side. Seconds are reals (`Reals.dfy`),
  datetimes are integers of microseconds.

## What turned out differently from the documentation

* `worst_case_round` is documented as the time a round can take when every publish hits the
  timeout, and is used as the bound that the lease must exceed. It does bound such rounds
  (`TimedOutRoundBound`), because a group stops at its first failure, and some take just that
  long (`TimedOutRoundTime`). It does not bound all rounds: one key with a batch of slow successes takes `batch_size` timeouts. It bounds every
  round exactly when `batch_size == 1` or `concurrency == 1` (`WorstCaseRoundBounds`); the bound
  that always holds is `LongGroupTime`.
* The visibility delay is documented as longer than the longest producer transaction. Equal is
  enough with insert-time stamps; with transaction-start stamps twice the longest is needed and
  enough (`DelayThreshold`).
* Fencing compares the worker id only. It keeps out every stale write exactly as long as no claim
  takes a row that another round of the same worker id may still write (`FenceCondition`). One
  round at a time per worker id is enough for that (`ExclusiveIsUndisputed`). So is it, with any
  sharing of ids, that no claim of any worker comes after the deadline of a round in flight
  (`InTimeRunsAreUndisputed`). `SharedIdBreaksFence` is a run in which a stale report goes
  through. Ordering, attempt accounting, the duplicate bound and the bound on retries hold
  without any such condition.
* `MemoryStorage.release` hands a row back once per listing of its id, the SQL statements of
  Postgres once; they agree exactly on rows that the worker does not lease or that are listed at
  most once (`ReleaseAgreesExactly`). The relay lists no id twice.
* A negative batch size, which the relay's configuration refuses, claims nothing in memory and
  everything in SQLite (`NegativeLimit`).

## Model

| member | source | states |
|---|---|---|
| `Claim.PrefixOfKey` | src/txoutbox/adapters/memory.py:105-129 | A strict claim never splits a key from the front: with a row of a key it hands out every earlier pending row of that key, whatever their ages, retries and leases |
| `Claim.EligibleExactly` | src/txoutbox/adapters/memory.py:118-123 | Under strict claims a keyed pending row can be handed out exactly when it and every earlier pending row of its key are due and unleased |
| `Claim.OvertakenExactly` | src/txoutbox/adapters/memory.py:118-123 | Strict or loose, an earlier pending row of a key is claimed with a later one exactly when claims are strict or the earlier row is ready itself |
| `Claim.LooseClaimSplitsKey` | src/txoutbox/adapters/memory.py:121-123 | A table on which a loose claim does overtake a head that waits for its retry |
| `Claim.ClaimRowsAt` | src/txoutbox/adapters/memory.py:112-128 | A row changes exactly if it is among the first `batch_size` eligible rows, judged on the table before the claim |
| `Claim.ClaimChanges` | src/txoutbox/adapters/memory.py:124-127 | Field by field what a claim leaves: a taken row has one more attempt, the worker, the lease's end and no retry time; the rest of it, and every other row, is as before |
| `Claim.HeldUntilLeaseEnds` | src/txoutbox/adapters/memory.py:118-127 | A claimed row that nobody writes again is held from everyone before `now + lease`, and due from then on |
| `Claim.RecoveredExactly` | README.md:197-199 | When a worker crashes, every row of its claim can be claimed again exactly from the end of the lease on: no other row of the key stands in the way |
| `Claim.BatchSource` | src/txoutbox/adapters/memory.py:124-128 | Every message handed out is such a row, with its id, key and creation time and the attempt counted |
| `Claim.BatchComplete` | src/txoutbox/adapters/memory.py:112-129 | Every such row is handed out |
| `Claim.BatchAscending` | src/txoutbox/adapters/memory.py:112-129 | The batch is in id order |
| `Claim.BatchSize` | src/txoutbox/adapters/memory.py:113-114 | The batch has as many messages as there are eligible rows, at most `batch_size` |
| `Claim.ScanStops` | src/txoutbox/adapters/memory.py:113-114 | Stopping the scan at a full batch changes nothing about the result |
| `MemoryStore.MemoryStorage.Claim` | src/txoutbox/adapters/memory.py:105-129 | The scan that mutates records and grows the set of blocked keys leaves the table and returns the batch of the declarative selection on the table before it; a taken row is leased until `now + lease` with its retry time cleared and one attempt more, every other row stays as it is |
| `MemoryStore.ScanStep` | src/txoutbox/adapters/memory.py:112-128 | One turn of the loop, on a table half claimed already, decides as the selection does on the original table |
| `MemoryStore.MemoryStorage.AddSync` | src/txoutbox/adapters/memory.py:61-80 | A pending row with the next id, no attempts, no lease and no retry time; all others unchanged |
| `MemoryStore.MemoryStorage.Ack` | src/txoutbox/adapters/memory.py:131-135 | Exactly the listed rows leased by the worker become DONE and lose their lease, with all else as it was |
| `MemoryStore.MemoryStorage.Nack` | src/txoutbox/adapters/memory.py:137-144 | Exactly the listed row, if leased by the worker, gets error and retry time and loses its lease, with all else as it was |
| `MemoryStore.MemoryStorage.Release` | src/txoutbox/adapters/memory.py:146-153 | A listed row leased by the worker loses its lease, waits until the retry time, and has one attempt less for every listing; its status, key and last error, and every other row, are as before; for distinct ids this is the fenced write-back of the specification |
| `MemoryStore.MemoryStorage.DeadLetter` | src/txoutbox/adapters/memory.py:155-160 | Exactly the listed row, if leased by the worker, becomes DEAD and loses its lease, with all else as it was |
| `MemoryStore.MemoryStorage.Owned` | src/txoutbox/adapters/memory.py:162-164 | The positions of the listed rows leased by the worker, in list order, with repetitions |
| `MemoryStore.MemoryStorage.Stats` | src/txoutbox/adapters/memory.py:93-101 | Pending and dead counts and the oldest pending creation time |
| `MemoryStore.ReleaseAgreesExactly` | src/txoutbox/adapters/memory.py:150-164 | For every list of ids, the in-memory release and the SQL one agree on a row exactly when the worker does not lease it or its id is listed at most once |
| `MemoryStore.ReleaseAgreesOnDistinctIds` | src/txoutbox/relay.py:382-384 | For distinct ids, all the relay passes, they agree on every row |
| `Rows.WrittenOnce` | src/txoutbox/adapters/memory.py:131-164 | A write-back that takes effect ends the lease: no later write-back, repeated or of another worker, changes the row before it is claimed again |
| `Rows.OldestIsLeast` | src/txoutbox/adapters/memory.py:95-99 | The reported oldest pending time is the least over the pending rows, and absent only if there are none |
| `Rows.CountIsSize` | src/txoutbox/adapters/memory.py:93-101 | A status count is the number of rows with that status |
| `SqlStore.WhereIsEligible` | src/txoutbox/adapters/sqlite.py:193-205 | The WHERE clause with NOT EXISTS over smaller ids is eligibility judged on the rows before |
| `SqlStore.ScanRefinesQuery` | src/txoutbox/adapters/sqlite.py:190-228 | For every table, time and batch size, strict or loose, selecting, updating and fetching by ids leaves the same table and returns the same batch as the scan |
| `SqlStore.NegativeLimit` | src/txoutbox/adapters/sqlite.py:204 | With a negative batch size the SQLite query selects every matching row, while the scan takes none and changes nothing |
| `SqlStore.SqliteStorage.Claim` | src/txoutbox/adapters/sqlite.py:190-228 | The SQLite claim with its early return leaves the table and batch of the specification; a taken row is leased until `now + lease` with its retry time cleared and one attempt more, every other row stays as it is |
| `SqlStore.SqliteStorage.ExecuteMany` | src/txoutbox/adapters/sqlite.py:246-254 | Row-by-row execution of a fenced statement over a list of ids is the one-shot statement; a handed-back row is not handed back again |
| `SqlStore.SqliteStorage.Ack` | src/txoutbox/adapters/sqlite.py:125-135 | With `delete_on_ack` a row remains exactly if it is not listed or not leased by the worker; without it, the listed rows the worker leases are DONE and unleased, and every other row stays as it is |
| `SqlStore.SqliteStorage.Release` | src/txoutbox/adapters/sqlite.py:147-157 | A listed row leased by the worker loses its lease, waits until the retry time and has one attempt less, even when listed twice; every other row stays as it is |
| `SqlStore.SqliteStorage.Nack` | src/txoutbox/adapters/sqlite.py:137-145 | The UPDATE is the fenced nack of the specification: the row the worker leases loses its lease and gets error and retry time, with all else as it was; every other row stays as it is |
| `SqlStore.SqliteStorage.DeadLetter` | src/txoutbox/adapters/sqlite.py:159-165 | The UPDATE is the fenced dead-letter of the specification: the row the worker leases is DEAD and unleased with the error, with all else as it was; every other row stays as it is |
| `SqlStore.SqliteStorage.Purge` | src/txoutbox/adapters/sqlite.py:172-186 | A row remains exactly if it was there and is not a DONE row older than the cutoff, the rest keeps its order, the number of deleted rows is returned, and with `delete_on_ack` nothing is deleted |
| `Deletion.DeletingIsInvisible` | src/txoutbox/adapters/sqlite.py:125-186 | For every sequence of operations a storage with `delete_on_ack`, or with `purge` anywhere in between, returns the same ids, batches and statistics as one that keeps delivered rows for ever |
| `Deletion.ClaimSeesLive` | src/txoutbox/adapters/sqlite.py:193-205 | A claim returns the same batch, and leaves the same live rows, with or without the delivered rows |
| `Deletion.DeleteAckedIsAck` | src/txoutbox/adapters/sqlite.py:128-134 | On live rows, deleting acked rows is marking them DONE |
| `Deletion.PurgeKeepsLive` | src/txoutbox/adapters/sqlite.py:180-183 | A purge removes no pending and no dead row |
| `Deletion.StatsSeeLive` | src/txoutbox/adapters/sqlite.py:230-240 | Statistics do not depend on delivered rows |
| `Deletion.DeliveredRowsGo` | src/txoutbox/adapters/sqlite.py:128-175 | With `delete_on_ack` no DONE row is kept after any sequence of operations, so that `purge`, which then returns at once, has nothing to delete |
| `Grouping.GroupByKey` | src/txoutbox/relay.py:417-430 | The loop over a dictionary and a result that share list objects returns the specified groups in order |
| `Grouping.GroupIsStable` | src/txoutbox/relay.py:417-430 | A group is a non-empty selection of batch positions in batch order, of one key; a keyless message stands alone |
| `Grouping.EveryPositionOnce` | src/txoutbox/relay.py:421-430 | Every batch position lies in exactly one group |
| `Grouping.OrderOfAppearance` | src/txoutbox/relay.py:424-430 | Groups are ordered by first appearance |
| `Grouping.GroupsArePermutation` | src/txoutbox/relay.py:417-430 | The groups together are a permutation of the batch |
| `Grouping.KeyHasOneGroup` | src/txoutbox/relay.py:425-429 | Two groups never share a key |
| `RoundStart.StartDisjoint` | src/txoutbox/relay.py:288-291 | No message is in two concurrent groups |
| `RoundStart.StartRemaining` | src/txoutbox/relay.py:277-291 | The groups of a round hold exactly the claimed messages |
| `Round.ScheduleIndependence` | src/txoutbox/relay.py:281-329 | For fixed verdicts any two interleavings of the groups of a round end with the same table, the same counters and the same acked messages |
| `Round.AnyScheduleSettles` | src/txoutbox/relay.py:281-329 | Every complete interleaving ends where running the groups one after another ends |
| `Round.RoundAccounting` | src/txoutbox/relay.py:315-398 | Every complete round counts `claimed = published + retried + dead_lettered + blocked`, lost write-backs included |
| `Round.CountsAddUp` | src/txoutbox/relay.py:315-388 | At every point of a round the counters and the unsettled messages add up to the batch |
| `RoundOutcome.LaneOutcome` | src/txoutbox/relay.py:315-388 | Each message of a group gets the write-back of its place: none before the first failure, the report at it, the release after it |
| `RoundOutcome.LaneAckedIs` | src/txoutbox/relay.py:315-329 | The accepted messages of a group are the prefix before its first failure |
| `RoundOutcome.LaneCountsAre` | src/txoutbox/relay.py:319-328 | A group counts its published prefix, at most one failure, and a blocked rest |
| `RoundOutcome.FollowersShareRetryTime` | src/txoutbox/relay.py:352-382 | When the write-backs take effect the nacked head and its followers are all held before, and due from, the time of the failure plus the back-off, and only the head has burnt an attempt |
| `RoundOutcome.FollowersOfDeadLetter` | src/txoutbox/relay.py:344-382 | The followers of a dead-lettered head are due from the time of the failure on, without having burnt an attempt |
| `RoundVerdicts.RoundVerdict` | src/txoutbox/relay.py:266-388 | From before the claim to after the ack, for any publisher and any lost reports: a claimed row is DONE if it comes before the first failure of its group; at the failure it waits for failure time plus back-off, or is DEAD at `max_attempts`; behind it it waits as long, with its attempts as before the round; with its report lost it is leased until `now + lease` |
| `RoundVerdicts.OtherRow` | src/txoutbox/relay.py:266-388 | A row that the round did not claim is as before the round |
| `RoundOutcome.Cancellation` | src/txoutbox/relay.py:288-329 | Stopped after any number of steps of any interleaving, a round has acked exactly the messages accepted so far, a prefix of each group, none of them was nacked, released or dead-lettered, and the final ack marks them DONE |
| `RelayRound.Relay.HandleFailure` | src/txoutbox/relay.py:338-366 | Below `max_attempts` a nack with retry time failure time plus back-off, which is returned, and one more retried; from there on a dead-letter, the failure time, and one more dead-lettered; the table is unchanged if the report is lost |
| `RelayRound.Relay.BlockRest` | src/txoutbox/relay.py:368-388 | The untried rest is released: the rows the worker leases are unleased, wait until the given retry time and have one attempt less; the rest is counted as blocked, released or not |
| `RelayRound.Relay.PublishGroup` | src/txoutbox/relay.py:315-329 | The loop of one group, undisturbed, ends table, acked list and counters where the group's lane ends |
| `RelayRound.Relay.Resume` | src/txoutbox/relay.py:315-329 | One resumption of a group takes exactly one step of its lane: an accepted publish, a failed one with its report, or the release of the rest |
| `RelayRound.Relay.PublishAll` | src/txoutbox/relay.py:281-291 | All groups run concurrently, each step taken by any group that is not done: they terminate, and end with the same table, counters and acked ids whatever the choices |
| `RelayRound.Relay.RunOnce` | src/txoutbox/relay.py:266-313 | A whole round over the in-memory storage with its groups running concurrently: the table it leaves, its counters and their sum, and when an error propagates |
| `OutboxSystem.NothingIsLost` | src/txoutbox/adapters/memory.py:131-164 | In every run rows keep their identity, and a DONE or DEAD row never changes again, whatever stale workers write |
| `OutboxSystem.Absorbing` | src/txoutbox/adapters/memory.py:112-164 | A row becomes DONE only by the ack of a round whose publish was accepted; settled rows hold no lease |
| `OutboxSystem.RowStepped` | src/txoutbox/adapters/memory.py:112-164 | All that any step of any worker can do to a row |
| `OutboxSystem.StatusesPartition` | src/txoutbox/adapters/memory.py:87-101 | After every run the pending, done and dead rows add up to the rows inserted in it |
| `RoundsInSystem.RoundInSystem` | src/txoutbox/relay.py:266-313 | In any state of the system, the steps of one round that no other step comes between, under any complete schedule, leave the table of the whole round and add what it acked to the accepted messages |
| `Ordering.FirstDeliveryOrder` | src/txoutbox/adapters/memory.py:105-135 | In every run with strict claims, with any number of workers, crashes, expired leases, stale workers and lost write-backs: when a message is accepted, every earlier message of its key has been accepted or is DEAD |
| `Ordering.FirstPublicationsInOrder` | src/txoutbox/relay.py:315-329 | First publications of the messages of a key that are not dead-lettered come in insertion order, without gaps |
| `Accounting.AttemptAccounting` | src/txoutbox/adapters/memory.py:124-160 | In every reachable state `attempts` is effective nacks plus superseded claims, plus one while a claim holds the row; so it is never negative |
| `Accounting.TalliesTrack` | src/txoutbox/adapters/memory.py:124-160 | The tallies count exactly the claims that took the row, those that took it from an older lease, and the nacks that landed |
| `Accounting.DuplicateBound` | src/txoutbox/relay.py:288-329 | A message is accepted at most once plus the number of its superseded claims, at least once if it is DONE, and at most once if no claim was superseded |
| `Punctuality.PunctualRoundsDeliverOnce` | README.md:197-199 | When every round is over before its lease runs out and its write-backs arrive, no message is accepted twice, and every DONE one was accepted exactly once, for any publisher and any number of workers |
| `Punctuality.StepKeepsUnsuperseded` | src/txoutbox/adapters/memory.py:118-127 | A claim cannot take over a row whose round still holds its lease |
| `Fencing.FenceCondition` | src/txoutbox/adapters/memory.py:131-164 | In every run: the rounds in flight can never, however they go on, write a row on an outdated claim, exactly if no claim of the run took a row that another round of its worker id may still write |
| `Fencing.FencedWriteBack` | src/txoutbox/adapters/memory.py:131-164 | In every run whose claims are undisputed in that sense, every write-back that changes a row belongs to the latest claim of that row |
| `Fencing.OutdatedWrites` | src/txoutbox/adapters/memory.py:162-164 | A round that may still write a row its worker id leases again has a continuation that writes it |
| `Fencing.ExclusiveIsUndisputed` | src/txoutbox/adapters/memory.py:162-164 | One round at a time per worker id keeps all claims undisputed |
| `Leases.InTimeRunsAreUndisputed` | README.md:197-199 | If no claim, by whichever worker, comes after the deadline of a round in flight, all claims are undisputed, with any sharing of worker ids and any lost reports; and a round still leases every row it may write, so that no write-back is fenced off |
| `LeaseBudget.CoveredLeasesKeepTheFence` | src/txoutbox/relay.py:63-74 | When every lease is longer than the bound on publishing that holds for all rounds plus an allowance for storage calls, and rounds take their turns as configured, every claim comes in time and no write-back is stale |
| `LeaseBudget.CoveredLeasesDeliverOnce` | README.md:197-199 | When the write-backs arrive as well, no message is accepted twice, and every DONE one exactly once |
| `SharedWorkerId.SharedIdBreaksFence` | src/txoutbox/adapters/memory.py:162-164 | A run of two rounds under one worker id with a disputed claim, after which every reported failure of the stale round writes the row |
| `Retries.RetriesAreBounded` | src/txoutbox/relay.py:344-366 | In every run, with any crashes and shared worker ids: if no `max_attempts` is above a limit, fewer nacks of a message than that limit take effect |
| `Retries.DeadUsedItsAttempts` | src/txoutbox/relay.py:344-351 | In every run, a DEAD row has used at least the least `max_attempts` of the workers |
| `Retries.AttemptsStartAtOne` | src/txoutbox/relay.py:352 | In every run every message that a round can still see fail, landed or not, stale or not, has an attempt of at least one, so the back-off never refuses it, and at most the nacks and superseded claims of its row plus one |
| `HeadOfLine.AttemptsOfNacks` | src/txoutbox/relay.py:344-362 | In every run the nacks of a message that take effect are as many as its tally says, on attempts from one to below the largest `max_attempts`; with undisputed claims each is on a later attempt than the one before |
| `HeadOfLine.NackSchedules` | src/txoutbox/relay.py:352-361 | A nack that takes effect leaves its row held before, and due from, the time of that failure plus its back-off |
| `HeadOfLine.RetriesHoldBackAtMost` | src/txoutbox/relay.py:344-362 | In every run whose failures back off as configured, the waits that the table shows after these nacks are, up to rounding to microseconds, delays drawn for their attempts; they total at most `1 + jitter` times `(max_attempts - 1) * maximum`, and with undisputed claims also at most `1 + jitter` times the geometric total |
| `RoundStart.RoundRowsAnySchedule` | src/txoutbox/relay.py:281-294 | The table after a round does not depend on the schedule |
| `Draining.RoundDrains` | src/txoutbox/relay.py:266-386 | When retries are due, no lease is live and write-backs arrive, a round with anything pending claims something and lowers the total of the attempts left, counted as at least one for each pending row |
| `Draining.Drains` | src/txoutbox/relay.py:266-386 | After as many such rounds as that total, every row is DONE or DEAD, whatever the publisher does and however many attempts crashes had used up before |
| `Makespan.SinglePublishesBound` | src/txoutbox/relay.py:76-81 | If no group publishes more than once, any work-conserving use of the permits ends within `ceil(batch_size / concurrency) * publish_timeout` |
| `RoundTime.TimedOutRoundBound` | src/txoutbox/relay.py:76-81 | For every claimed batch, the same when every publish fails, or no two messages share a key |
| `RoundTime.TimedOutRoundTime` | src/txoutbox/relay.py:76-81 | Every round of a full batch without shared keys, each of whose publishes lasts until the timeout, ends exactly at the formula, whichever way the groups take their turns |
| `RoundTime.TimedOutRound` | src/txoutbox/relay.py:76-81 | There is such a round for every batch size, concurrency and timeout, and any verdicts |
| `RoundTime.NoBoundWithoutTimeout` | src/txoutbox/relay.py:79-80 | Without a publish timeout the formula gives nothing, and a round can take longer than any given time |
| `RoundTime.LongGroupTime` | src/txoutbox/relay.py:282-291 | For every claimed batch and any verdicts: with batch size B and no group longer than L the round ends within `((B - L) / concurrency + L) * publish_timeout` |
| `RoundTime.WorstCaseRoundBounds` | src/txoutbox/relay.py:76-81 | The documented formula bounds every round, over all tables, verdicts, durations and orders of the groups, exactly when the batch size or the concurrency is one |
| `RoundTime.OneLongKey` | src/txoutbox/relay.py:318-329 | A table of one key whose claimed batch of slow successes takes `batch_size` timeouts |
| `Visibility.DelayThreshold` | src/txoutbox/adapters/postgres.py:411-433 | A visibility delay guarantees that every smaller id has committed or rolled back when a row is claimed exactly when it is at least one longest transaction (insert-time stamps) or two (transaction-start stamps) |
| `Visibility.TooLittleDelay` | CHANGELOG.md:35-38 | For every smaller delay, two transactions that break the guarantee |
| `Visibility.InsertionOrderPerKey` | src/txoutbox/adapters/postgres.py:78-84 | With that delay and strict ordering, every earlier insert of a claimed row's key was rolled back, is finished, or is claimed with it |
| `LateCommits.LateClaimIsEager` | src/txoutbox/adapters/postgres.py:411-435 | With that delay, the claim on the rows committed so far takes and changes the same rows as a claim on all rows inserted so far |
| `LateCommits.LateClaimOfSeen` | src/txoutbox/adapters/postgres.py:427-435 | Such a claim does to the visible table what the specification says |
| `LateCommits.LateCommitsAreInvisible` | README.md:192-196 | With that delay, every run in which inserts become visible at commit, in any order, ends in the state of a run in which they are visible at once |
| `LateCommits.LateDeliveryOrder` | README.md:189-196 | In every such run with strict claims: when a message is accepted, every earlier insert of its key, however late it commits, has been accepted or is DEAD |
| `BackoffPolicy.NominalShape` | src/txoutbox/backoff.py:34-42 | The delay before jitter starts at `base`, never shrinks, is geometric up to the cap and the cap afterwards |
| `BackoffPolicy.CapReached` | src/txoutbox/backoff.py:37-42 | Retries ever reach the maximum exactly when the factor exceeds one or `base` is the maximum |
| `BackoffPolicy.DelayIsNominal` | src/txoutbox/backoff.py:34-45 | The computed delay is the documented one, times the drawn factor if there is jitter, through the overflow branch too; so it is within the jitter of it; and only attempts below one are refused |
| `BackoffPolicy.OverflowAgrees` | src/txoutbox/backoff.py:38-42 | The overflow branch gives the documented minimum exactly when the value that overflowed is above the cap |
| `BackoffPolicy.HeadOfLineBound` | src/txoutbox/backoff.py:34-45 | Delays on any increasing attempts below `max_attempts` total at most `1 + jitter` times `(max_attempts - 1) * maximum` and `1 + jitter` times the geometric total |
| `BackoffPolicy.GeometricTotalIs` | src/txoutbox/backoff.py:34-42 | The geometric total in closed form |
| `Polling.GrownInterval` | src/txoutbox/poller.py:38-39 | Capping the interval at every step is capping it once at the end |
| `Polling.AdaptivePoller.Idle` | src/txoutbox/poller.py:38-39 | One more empty poll: the interval of the documented formula |
| `Polling.PauseIsWait` | src/txoutbox/poller.py:44-58 | For every sequence of ticks, a pause of the loop that ends by its deadline, by a wake before it or by one during it takes the time of the poller's `wait`, and leaves the flag down |
| `Polling.AcceptedParameters` | src/txoutbox/poller.py:25-29 | The constructor accepts exactly the parameters with which intervals start at the positive minimum and never shrink |
| `Polling.RelayLoop.LoopStep` | src/txoutbox/relay.py:217-237 | What follows a round, outcome by outcome: whether the interval is kept, reset or lengthened, how long is slept, and when the flag falls; and that this is the step of the loop machine |
| `Polling.NoSleepAfterWake` | src/txoutbox/relay.py:149-159 | For every interleaving, after a wake or a stop the loop does not sleep another moment before the next claim |
| `Polling.StopIsFinal` | src/txoutbox/relay.py:156-159 | After a stop no claim starts, nothing is slept, and the loop exits within three steps of its own |
| `Polling.NeverStuck` | src/txoutbox/relay.py:202-237 | From wherever it is, the loop left alone starts its next round within four steps, or exits without claiming if asked to stop |
| `Polling.IntervalAfterEmptyRounds` | src/txoutbox/poller.py:35-39 | In every run of the loop the interval is `min(minimum * factor^k, maximum)`, with k the empty rounds among the steps since the last round that claimed something, full or not |
| `Polling.FullPause` | src/txoutbox/relay.py:217-237 | After any run, without a wake or a stop, the loop sleeps exactly the pause its round calls for: none after a full batch, the minimum after a partial one, the interval for the streak of empty rounds after an empty one, the error delay after a failure |

## Left out

- Message contents: topic, payload, headers and their encoding travel unchanged and are not fields of the model.
- Record objects handed out by `get` and `records`: a caller could change them behind the storage.
- Locks, threads, connections, transactions and rollback of a failed statement: each storage operation is one atomic step.
- A claim that fails has no effect; a claim whose answer is lost after it took effect is, in `OutboxSystem.dfy`, a round that ends without ack.
- Row locks of Postgres (`FOR UPDATE SKIP LOCKED`), re-checks under read committed, the advisory lock, `LISTEN`/`NOTIFY`, pools and reconnects. The Postgres predicates are covered as predicates.
- A second cancellation during the shielded ack, and races between a publish and its timeout: a publish is accepted or fails, an ack arrives or does not.
- Cancellation in the middle of one report: the report counts as one step, which the stop falls before or after.
- The semaphore does not restrict interleavings: the results about rounds hold for every interleaving of all the groups, with or without a limit, and `RoundTime.dfy` treats the limit where it matters, for time. FIFO order of waiting groups is one of the orders covered there.
- Time spent in storage calls during a round: `RoundTime.dfy` bounds publishing time.
- Rounding of floats (of delays to microseconds, `HeadOfLine.dfy` allows for half of one each); overflow of `timedelta` itself. The random factor of the jitter is any value in its interval.
- Draining is stated for rounds one after another on one table; concurrent workers are the subject of the safety results.
- `Relay.run` beyond its loop: signals, `async with`, restarting a stopped relay (which clears the stop flag).
- Hooks, logging, worker id generation, schema statements, identifier checks, the Django example, the in-memory publisher.
- The age in `stats` is the clock minus the modelled creation time.
- The back-off delay inside a round is chosen by the oracle; `BackoffPolicy.dfy` treats its value, and `HeadOfLine.dfy` runs in which the delays are the policy's.
- How long storage calls take: `LeaseBudget.dfy` has an allowance for them as a parameter, and takes a round to be in flight no longer than its publishing and that allowance.
- Inserts that are rolled back are not rows of `LateCommits.dfy`; only the order of ids matters there, so the gaps they leave do not show. `Visibility.dfy` has them.
