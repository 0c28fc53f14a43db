# Horadus core, modelled and proved

A Dafny model of the state that Horadus keeps up incrementally and of the simple description each
piece of it has to agree with.

- **The trend ledger.** A trend row holds a log-odds value that decays exponentially toward its
  baseline. Evidence and compensating restatements add signed deltas to it, decays rewrite it,
  activations re-base it onto a new state version, any other edit of the trend moves its stamp,
  and retention deletes evidence rows. A projection check recomputes the value from the ledger.
  `TrendLedger` has every operation as a step on the stored rows, `TrendStore` has the engine's
  methods as methods of a class that updates those rows in place, and the other `Trend*` modules
  prove what every run keeps: the drift law with its rounding error, when stored and replayed
  value agree, the version chain, compensation, and what holds in every interleaving of
  transactions: serial equivalence, agreement with the ledger, counting each key once, deadlock, and
  outdated readings.
- **The API rate limiter.** Deque, Redis sorted-set script, counter tuple and Redis counter, each
  refined to one specification per strategy (`RateSpec`), with retry-after and fail-over.
  `ApiKeyManager` has the class that mutates their state.
- **Incremental structures.** The per-domain limiter under interleaving, the novelty snapshot
  index, backward pagination over GDELT with its watermark, provenance grouping, and coverage
  counting with its drop alerts.

`Decay`, `Numbers`, `Sums`, `Sorting`, `Sequences` and `Wrappers` are the small theories underneath. The
whole project verifies with `dafny verify dfyconfig.toml`.

## How things are represented

- Log-odds are `real`. Time in the ledger is a whole number of microseconds; a half-life is the
  factor per microsecond (`Decay.Rate`), so `pow(0.5, elapsed / half_life)` is a whole power of it
  and the law for adding exponents is proved, not assumed. The floor `max(0.1, half_life)` of the
  replay has no effect because half-lives are whole days.
- `Precision` switches the six-decimal NUMERIC columns on or off. With `Micro`, every row write,
  every mirror write and every ledger amount is rounded half away from zero.
- The database row is authoritative and is read again by each operation. A UUID is a number whose
  order is that of its text.
- Dictionaries whose order is visible are sequences of keys in insertion order.
- Clocks, what a service answers, lost calls, and the server's eviction of expired keys are
  parameters of each step, so that a theorem over all runs covers all of them.

## Findings

Each is a property the design calls for and the code does not always have, with a concrete case
and the exact condition under which it does have it.

- **Three writes move the row and the replay apart.** `TrendAgreement.DriftWithin` gives the
  difference on every run. From a state in which they agree, they still do:
  - after evidence, which does not decay the row first (`src/core/trend_engine.py:600-611`), if and
    only if the row sits on its baseline or was last written at that instant
    (`TrendAgreement.EvidenceKeepsAgreementIff`; `TrendAgreement.LateEvidenceDrifts` drifts by 0.5);
  - after any other edit of the trend, which stamps the row without decaying it
    (`src/storage/models.py:649-654`), under the same condition (`TrendAgreement.EditKeepsAgreementIff`);
  - after retention, which takes evidence out of the ledger but not out of the row
    (`src/workers/_task_retention.py:202-205`), if and only if what it deletes of the active state
    moved nothing (`TrendAgreement.PruneKeepsAgreementIff`; `TrendCompensation.PruneDrifts` drifts
    by 0.25).
- **A full invalidation does not erase evidence from the projection.** What stays is
  `TrendCompensation.InvalidationResidual`, -0.125 in `TrendCompensation.InvalidationLeavesResidual`;
  `TrendCompensation.ResidualBounds` says it is zero only if no time passed.
- **Restatements read the row without a lock.** No delta is lost, but the decay they add is that of
  their own reading. In `TrendStaleness.DecayTakenTwice` the same decay is taken twice. A
  restatement serves exactly when its reading owes the decay the row owes
  (`TrendStaleness.ReadingServesIff`), for one write of any interleaving
  (`TrendStaleness.RestatementServesIff`) and for all of a log (`TrendStaleness.AlwaysAsMeantIff`);
  `TrendStaleness.StaleRestatements` gives the error otherwise, exactly or up to column rounding.
- **Scoring two signals of one trend in one transaction can deadlock.** The first add takes the row
  lock, and the second insert may wait for a rival that wants the row
  (`TrendDeadlock.TwoSignalsDeadlock`). So can a decay after a score, which waits for the rival's
  share of the row (`TrendDeadlock.DecayAfterScoreDeadlocks`), though no caller combines them
  (`src/workers/_task_maintenance.py:524-555`). `TrendDeadlock.DeadlockIff` says exactly for which
  transactions this can happen; `TrendDeadlock.MoveOrDeadlock` says nothing else can stop them all.
- **The deque's retry-after can be too short**, by less than a second: `SlidingWindow.DequeStillDenies`
  is a case, and `SlidingWindow.DequeRetryShort` says exactly when it is long enough.
- **A Redis outage can double the quota** of a bucket or a sliding window, and never more
  (`FixedWindow.FailoverCapAttained`, `SlidingFailover.SlidingFailoverAttained`).
  `FixedWindow.FailoverCap` has the exact count of a bucket and when it stays within the limit. For
  the sliding window an allowed request keeps its window within the limit if and only if the two
  stores together hold fewer than the limit before it (`SlidingFailover.WithinLimitIff`,
  `SlidingFailover.UseIsLengths`), and a run keeps every window within it if and only if each request
  it allowed found such room (`SlidingFailover.SlidingLimitIff`).
- **The script sees whole milliseconds only**, so that over a full window the cap can fail by a
  fraction of one (`SlidingFailover.MillisecondLost`). For any window and limit it holds on every run
  if and only if the span is at least a millisecond shorter than the window
  (`SlidingFailover.CapIff`), and on every run with whole-millisecond clocks if and only if the span
  is no longer than the window (`SlidingFailover.WholeCapIff`).
- **A key revoked during a call is still served by it**, and keeps limiter state afterwards
  (`ApiKeyManager.RevokedInFlight`), because key and limiter are locked one after the other
  (`src/core/api_key_manager.py:232-259`). `ApiKeyManager.Manager.Consume` says when such state is
  left: exactly when the key is inactive by then and Redis did not answer.
- **Pagination loses articles**: those that share the second of a full page's oldest article and did
  not fit on it (`GdeltPaging.TwinIsCut`), those beyond the page cap, and those behind a full page
  of which no date parses. `GdeltPaging.ProcessedIff` says exactly which articles are processed,
  undated ones included, and `GdeltPaging.LeftBehind` that a loss older than the overlap is final.
- **An article whose date does not parse can be processed twice** (`GdeltPaging.UndatedTwice`);
  `GdeltPaging.RepeatedIff` says exactly which articles are, and `GdeltPaging.NothingTwice` that
  none with a date is.
- **A coverage report can raise a false alarm against its own snapshot**, when a key is not its own
  normal form (`CoverageAlertLaws.SpacedKeyAlarms`). `_normalize_language` can produce such a key:
  the language "x y" gives "x " (`src/core/source_coverage.py:154-165`).
  `CoverageAlertLaws.OwnSnapshotSilentIff` is the exact condition for any keys, also where several
  rows file under one key and the last wins, and `CoverageAlertLaws.OwnSnapshotKeysIff` the one
  on the keys alone where no two rows do.

## Model

| member | source | states |
|---|---|---|
| Decay.Factor | src/core/trend_restatement.py:80-81 | The decay factor is in (0, 1], and below 1 as soon as time passes. |
| Decay.FactorAdd | src/core/trend_restatement.py:80 | f(a + b) = f(a) f(b). |
| Decay.DecaySplitsAnywhere | src/core/trend_restatement.py:69-81 | Decaying through any ordered list of intermediate instants is decaying once. |
| Decay.DecayContracts | src/core/trend_restatement.py:80-81 | Decay never moves two values further apart. |
| TrendLedger.RoundMicro | alembic/versions/0001_initial_schema.py:212-213 | A six-decimal column is off by at most half a millionth. |
| TrendLedger.WriteStores | alembic/versions/0001_initial_schema.py:212-213 | What a column reads is the value itself where it is exact, and else the nearest whole millionth, halves away from zero. |
| TrendLedger.StoresOne | alembic/versions/0001_initial_schema.py:212-213 | That leaves it one reading. |
| TrendLedger.MarkInvalidated | src/processing/trend_impact_reconciliation.py:646-661 | Invalidation flags the row with that id and changes nothing else. |
| TrendProjection.ReplayClosedForm | src/core/trend_restatement.py:295-312 | The replay loop returns B + (S - B) f(T - t0) + the sum of delta_i f(T - t_i). |
| TrendProjection.ReplayIgnoresTieBreak | src/core/trend_restatement.py:275 | Any two time-ordered arrangements of the entries replay to the same value: entry type and id never matter. |
| TrendProjection.ProjectedClosedForm | src/core/trend_restatement.py:228-312 | The closed form for the sorted ledger of the active state, from its starting value and activation time. |
| TrendDrift.RunCoherent | src/core/trend_state.py:117-161 | On every legal run the row mirrors its active version, and no ledger row of that version predates the activation or postdates the row. |
| TrendDrift.ActivationClearsDrift | src/core/trend_state.py:117-161 | Whatever the drift before it, an activation leaves none. |
| TrendDrift.ActivationStarts | src/core/trend_state.py:118-161 | A replay or a new line starts at its own baseline, a created or rebased state at the value the row had; start, row, version and projection agree there, stamped with the activation time. |
| TrendDrift.StepStoresRow | alembic/versions/0001_initial_schema.py:212-213 | Every operation keeps the row's value one its column holds exactly. |
| TrendDrift.LedgerStep | src/core/trend_restatement.py:125-148 | What each operation adds to the replay of the active state: its rounded delta from its own stamp, or nothing for duplicates, zero or superseded restatements, decays, edits and invalidations. |
| TrendDrift.LedgerPrune | src/workers/_task_retention.py:202-205 | Deleting evidence takes exactly its rows' remaining contributions out of the replay. |
| TrendDrift.DriftStep | src/core/trend_restatement.py:313-318 | Every operation but an activation changes the drift by what it moved the row less what it logged. |
| TrendAgreement.DriftWithin | src/core/trend_engine.py:600-611 | On every legal run, with exact or six-decimal columns, stored minus projected at any later T is, up to one millionth per rounded row write since the last activation, the sum over what slipped since then: (stored_k - baseline)(1 - f(t_k - u_k)) f(T - t_k) for each undecayed write or edit, what a stamp earlier than the apply time adds, and what each deleted evidence row contributed. |
| TrendAgreement.DriftLaw | src/core/trend_engine.py:600-611 | With exact columns the law has no error term. |
| TrendAgreement.ReplayAgreement | src/core/trend_restatement.py:217-322 | On every run whose evidence lands at the row's last stamp, where no other edit moves that stamp and no evidence of the active state is deleted, the stored value equals the projection after every step and at every later instant, whatever decays, restatements, invalidations and activations are among the steps. |
| TrendAgreement.RoundingBound | alembic/versions/0001_initial_schema.py:212-213 | With six-decimal columns those runs keep stored and projected within one millionth per row write since the last activation. |
| TrendAgreement.RoundingBoundAttained | alembic/versions/0001_initial_schema.py:254 | For every n there is such a run with n writes that drifts by exactly n millionths: the bound cannot be lowered. |
| TrendAgreement.EvidenceKeepsAgreementIff | src/core/trend_engine.py:600-611 | From an agreeing state, evidence keeps agreement if and only if the row is on its baseline or was last written at that instant. |
| TrendAgreement.EditKeepsAgreementIff | src/storage/models.py:649-654 | The same condition for any other edit of the trend, which moves the stamp without decaying. |
| TrendAgreement.PruneKeepsAgreementIff | src/workers/_task_retention.py:202-205 | From an agreeing state, deleting an evidence row keeps agreement if and only if it belonged to another state or its stored delta is zero. |
| TrendAgreement.LateEvidenceDrifts | src/core/trend_engine.py:600-611 | A concrete evidence write, one tick late, after which stored and projected differ by 0.5. |
| TrendCompensation.PruneDrifts | src/workers/_task_retention.py:202-205 | A concrete agreeing trend that a legal deletion leaves drifting by 0.25. |
| TrendVersions.RunLineage | src/core/trend_state.py:117-161 | After every run the versions form one parent chain with the active one newest, and the row's value, baseline and rate are those of the active version. |
| TrendVersions.SupersededFrozen | src/core/trend_engine.py:491-499 | A superseded version is never active again and never changes, over any run. |
| TrendVersions.AncestryVisitsAll | src/core/trend_state.py:119-136 | Parent links from the active version visit every version exactly once in reverse activation order, and end. |
| TrendCompensation.FullCompensationIff | src/core/trend_restatement.py:53-60 | After any partial restatements, a further one leaves nothing outstanding if and only if it takes back the remaining delta, which the columns store exactly. |
| TrendCompensation.OutstandingStep | src/core/trend_restatement.py:188-214 | What is outstanding on an evidence row moves with the restatements of that row alone, by what their columns hold. |
| TrendCompensation.TotalOnGrid | src/core/trend_restatement.py:188-214 | Compensation totals are whole millionths, so sums of stored amounts lose nothing. |
| TrendCompensation.StepStoresAmounts | src/core/trend_restatement.py:138-147 | Every operation keeps all ledger amounts storable in six decimals. |
| TrendCompensation.InvalidationResidual | src/core/trend_restatement.py:295-312 | Invalidating an untouched evidence row in full leaves, against the ledger without that row, exactly delta f(T - t1)(f(t1 - t0) - 1). |
| TrendCompensation.ResidualBounds | src/core/trend_restatement.py:295-312 | That residual never has the delta's sign, is smaller than it, and vanishes only if no time passed. |
| TrendCompensation.InvalidationLeavesResidual | src/core/trend_restatement.py:295-312 | A concrete evidence row taken back in full one tick later, nothing outstanding, and the replay left at -0.125 instead of zero. |
| TrendStore.Trend.constructor | src/core/trend_state.py:117-161 | A new trend has the rounded baseline and value, one version that starts there, an empty ledger and a one-version lineage. |
| TrendStore.Trend.ApplyLogOddsDelta | src/core/trend_engine.py:456-510 | The atomic add moves row and mirror by the delta, stamps the row, and reports the values before and after; the lineage holds. |
| TrendStore.Trend.ApplyEvidence | src/core/trend_engine.py:512-640 | Where a live row of the active state has that claim and signal nothing changes and zero is applied; otherwise one live evidence row is added, and row and mirror move by the delta without decay. |
| TrendStore.Trend.ApplyDecay | src/core/trend_engine.py:642-730 | Once the clock is past the last write, row, mirror and result are baseline + (value - baseline) f(elapsed), rounded by the column, and the stamp is the clock; otherwise nothing is written. |
| Decay.FadeIsFactor | src/core/trend_engine.py:705-713 | f(elapsed) is the decay factor of the whole elapsed time, and one where none has passed. |
| TrendStore.Trend.ApplyCompensatingRestatement | src/core/trend_restatement.py:84-185 | The ledger row is always written, for the target's state and id; row and mirror become the decayed value plus the delta only for a nonzero compensation of the active state. |
| TrendStore.Trend.ActivateTrendState | src/core/trend_state.py:96-161 | Appends and activates a version under the new contract: for replay and new line row and version start at the new baseline, for create and rebase at the value the row had; the lineage holds. |
| TrendStore.Trend.Touch | src/storage/models.py:649-654 | An edit of another column stamps the row and changes nothing else. |
| TrendStore.Trend.ClaimEvidenceInvalidation | src/processing/trend_impact_reconciliation.py:642-663 | The claim succeeds for a live row of that id, flags it, and changes no other row and no value. |
| TrendStore.Trend.PruneEvidence | src/workers/_task_retention.py:202-205 | The evidence row goes, restatements that named it no longer do, and the trend row stays. |
| TrendStore.Trend.BuildTrendProjectionCheck | src/core/trend_restatement.py:217-322 | The replay loop computes the projection of the specification; the reported drift is stored minus projected, and evidence and restatements of the active state up to that time are counted each. |
| TrendSerializability.BehaviourInv | src/core/trend_engine.py:528-609 | In every interleaving of check, insert, unlocked read, share, add, lock, decay, commit, rollback and retry, with any number of works to a transaction: the row lock has one running holder, a row locked for update is shared by nobody else, each uncommitted index entry is a running transaction's and of no committed key, and each running transaction has written, and taken, what it would have alone over the committed keys. |
| TrendSerializability.SerialEquivalence | src/core/trend_engine.py:456-466 | In every interleaving the committed row and keys, and the list of committed writes, are those of the committed transactions run whole, one after the other, in the order they committed, with the same duplicates skipped. |
| TrendSerializability.NothingLost | src/core/trend_engine.py:456-466 | Every restatement and decay of a committed transaction is in the row, nothing is there twice, and nothing of a transaction that did not commit. |
| TrendSerializability.ExactlyOnce | alembic/versions/0030_add_trend_state_versions.py:314-321 | In every interleaving each (state, claim, signal) key that a committed transaction scored is committed, and counted by exactly one write, or by none if it was counted before. |
| TrendCommits.WorkIsStep | src/core/trend_engine.py:456-466 | A score of a new key, a nonzero restatement or a decay that reads the row it writes over writes the row that the ledger's own operation writes. |
| TrendCommits.CommittedScoresAddUp | src/core/trend_engine.py:456-466 | In every interleaving whose committed writes are scores, the exact row is the start plus the sum of their deltas. |
| TrendCommits.CommittedRowIsRun | src/core/trend_engine.py:456-466 | In every interleaving whose readings served, the committed row is the one that the ledger's operations make of the store the transactions found. |
| TrendCommits.CommittedRowDrifts | src/core/trend_engine.py:600-611 | With writes in time order that row is one of a legal run since the trend's creation, and the drift law holds of it. |
| TrendDeadlock.HolderMovesIff | src/core/trend_engine.py:579-684 | In every interleaving the holder of the row lock can go on if and only if no transaction that has yet to write the row holds what it waits for: the key it is about to insert, or a share of the row it is about to lock for update. |
| TrendDeadlock.MoveOrDeadlock | src/core/trend_engine.py:670-728 | While some transaction has not committed, one of them can take a step other than a rollback, or two are in that deadlock. |
| TrendDeadlock.DeadlockLasts | src/core/trend_engine.py:579-609 | Over any steps of any behaviour, a deadlock lasts until one of its two transactions rolls back. |
| TrendDeadlock.DeadlockIff | src/core/trend_engine.py:579-684 | Some interleaving of given transactions reaches a deadlock if and only if, after some others have run whole, one comes to a new score or a restatement with nothing written, and another, with something written, comes to score the same key, not yet its own, or to its first decay. |
| TrendDeadlock.RestatementsFollow | src/core/trend_engine.py:579-684 | Transactions in which only restatements follow other work reach no deadlock. |
| TrendDeadlock.TwoSignalsDeadlock | src/core/trend_engine.py:579-609 | A concrete deadlock: one transaction scores two signals, another the second of them. |
| TrendDeadlock.DecayAfterScoreDeadlocks | src/core/trend_engine.py:670-684 | Another: one transaction scores and decays, another scores a different signal. |
| TrendStaleness.GapStep | src/core/trend_restatement.py:150-180 | A restatement computed from an outdated reading misses the intended write by the decay the row still owed less the decay the reading owed; decays and restatements fade an earlier gap, evidence keeps it. |
| TrendStaleness.StaleRestatements | src/core/trend_restatement.py:150-180 | In every interleaving the committed value is that of the serial run whose restatements decay the row they write over, plus the accumulated staleness: exactly, or with six-decimal columns up to one millionth per write. |
| TrendStaleness.Writes | src/core/trend_engine.py:456-466 | In every interleaving a write is the work at hand, done over the row as it stands at the time of the step, from the reading taken if it is a restatement. |
| TrendStaleness.ReadingIsCommitted | src/core/trend_restatement.py:150-155 | A reading is the committed row, or the transaction's own, as it stood when it was loaded. |
| TrendStaleness.ReadingServesIff | src/core/trend_restatement.py:153-171 | A restatement writes what it meant if and only if its reading owes, by then, the decay the row owes. |
| TrendStaleness.RestatementServesIff | src/core/trend_restatement.py:150-183 | In every interleaving, over a row that is still as meant, a restatement writes the meant row if and only if its reading owes what that row owes. |
| TrendStaleness.HeldReadingServes | src/core/trend_restatement.py:181-183 | In every interleaving a restatement whose transaction already holds the row reads the row it writes over. |
| TrendStaleness.AlwaysAsMeantIff | src/core/trend_restatement.py:150-183 | The row is as meant after every write of a log if and only if every restatement's reading owed what it wrote over owed. |
| TrendStaleness.CurrentReadings | src/core/trend_restatement.py:162-171 | Where every reading owes the same decay as the row written over, the committed row is the meant one, with rounded columns too. |
| TrendStaleness.DecayTakenTwice | src/core/trend_restatement.py:150-180 | A behaviour of one restatement and one decay that commits 0.25 where the restatement meant 0.75. |
| RateSpec.ConformsUnique | src/core/api_key_manager.py:232-259 | Two limiters that count the same earlier requests and meet the specification decide alike. |
| RateSpec.Cap | src/core/api_key_manager.py:232-259 | Among requests that all count against one another, a conforming limiter allows at most the limit. |
| SlidingWindow.DequeRefinesSpec | src/core/api_key_manager.py:371-387 | On every non-decreasing sequence the deque allows a request iff fewer than limit earlier allowed ones lie in (now - W, now], and holds exactly those. |
| SlidingWindow.EvictionHarmless | src/core/api_key_manager.py:70-74 | As long as the server's clock gains at most a second on the caller's, an expired key holds nothing the script would still count; a constant offset is harmless. |
| SlidingWindow.KeyForgottenIff | src/core/api_key_manager.py:74 | An allowed request keeps its key for one window and a second on the server's clock, no more and no less; a denied one does not prolong it. |
| SlidingWindow.LuaRefinesSpec | src/core/api_key_manager.py:62-88 | The script, with key expiry at any permitted moment, meets the same specification on its millisecond stamps. |
| SlidingWindow.LuaAgreesWithDeque | src/core/api_key_manager.py:318-348 | On every millisecond-valued sequence script and deque decide alike. |
| SlidingWindow.SlidingCap | src/core/api_key_manager.py:371-387 | At most limit requests are allowed in any half-open span of one window. |
| SlidingWindow.ScriptCap | src/core/api_key_manager.py:62-88 | The script allows at most limit requests in any half-open span of a window less a millisecond, and of a whole window on whole-millisecond clocks. |
| SlidingWindow.LuaRetryExact | src/core/api_key_manager.py:343-348 | After a denial by the script, with no other request, waiting whole seconds leads to an allow exactly when it lasts at least the returned number. |
| SlidingWindow.LuaRetryReachable | src/core/api_key_manager.py:343-348 | The same after any run of the script. |
| SlidingWindow.DequeRetryShort | src/core/api_key_manager.py:382-384 | The deque's value is less than a second short of the true wait, and suffices exactly when that wait is whole or at most one second. |
| SlidingWindow.DequeRetryReachable | src/core/api_key_manager.py:382-384 | The same after any run of the deque. |
| SlidingWindow.DequeStillDenies | src/core/api_key_manager.py:382-384 | A denial that answers 59 seconds, after which the deque still denies. |
| FixedWindow.WindowStartAligned | src/core/api_key_manager.py:303-304 | now lies in its aligned bucket. |
| FixedWindow.MemoryRefinesSpec | src/core/api_key_manager.py:350-369 | On every non-decreasing sequence the counter tuple allows a request iff fewer than limit earlier ones were allowed in its bucket. |
| FixedWindow.EvictionTooLate | src/core/api_key_manager.py:309 | The expiry one second past the bucket never resets a counter still in use. |
| FixedWindow.CounterForgottenIff | src/core/api_key_manager.py:309 | A counter is dropped one second after its bucket ends, no sooner and no later. |
| FixedWindow.RedisRefinesSpec | src/core/api_key_manager.py:295-316 | The Redis counter, which counts denials too, meets the same specification. |
| FixedWindow.RedisAgreesWithMemory | src/core/api_key_manager.py:295-369 | The two decide identically on every non-decreasing sequence. |
| FixedWindow.FixedCaps | src/core/api_key_manager.py:350-369 | At most limit per aligned bucket and at most twice the limit in any half-open interval of one window. |
| FixedWindow.SecondsLeftExact | src/core/api_key_manager.py:315 | The returned seconds are the least whole number that reaches a later bucket. |
| FixedWindow.MemoryRetryExact | src/core/api_key_manager.py:364-366 | After a denial by the tuple, waiting leads to an allow exactly when it lasts the returned seconds. |
| FixedWindow.RedisRetryExact | src/core/api_key_manager.py:315-316 | The same for the Redis counter, given counters of no later bucket. |
| FixedWindow.RedisRetryReachable | src/core/api_key_manager.py:315-316 | The same on the counters that any run, failures included, leaves behind. |
| FixedWindow.FailoverExact | src/core/api_key_manager.py:232-293 | Under any pattern of outages, lost answers and fallbacks, memory lets through as many requests of a bucket as fell back to it, up to the limit, and Redis those it answered among the first limit that reached it. |
| FixedWindow.FailoverCap | src/core/api_key_manager.py:232-293 | So a bucket allows exactly the sum of both, at most twice the limit, and no more than the limit if and only if Redis served none or both together fit. |
| FixedWindow.FailoverCapAttained | src/core/api_key_manager.py:285-293 | An outage after the quota is spent does allow twice the limit. |
| SlidingFailover.FailoverHolds | src/core/api_key_manager.py:261-293 | Under any pattern of outages, lost answers and fallbacks each of the two sliding windows of a key holds exactly what it took and is still in the window, and takes a request that reaches it if and only if fewer than limit that it took count against it. |
| SlidingFailover.SlidingFailoverCap | src/core/api_key_manager.py:232-293 | Under any such pattern at most twice the limit is allowed in any half-open span of a window less a millisecond, and of a whole window on whole-millisecond clocks. |
| SlidingFailover.ScriptUse | src/core/api_key_manager.py:318-348 | On whole-millisecond clocks the live set is what Redis took in the window, answered or with the answer lost. |
| SlidingFailover.UseIsLengths | src/core/api_key_manager.py:318-387 | Without lost answers, what was allowed in the window before a request is the live deque and the live sorted set together. |
| SlidingFailover.WithinLimitIff | src/core/api_key_manager.py:232-293 | After any pattern of failures an allowed request keeps its window within the limit if and only if the deque's live entries and Redis's live answered ones are fewer than the limit before it. |
| SlidingFailover.SlidingLimitIff | src/core/api_key_manager.py:232-293 | A run allows at most the limit in every window if and only if each request it allowed found such room. |
| SlidingFailover.CapIff | src/core/api_key_manager.py:327 | For any window and limit, twice the limit holds in a half-open span on every run if and only if the span is at least a millisecond shorter than the window. |
| SlidingFailover.WholeCapIff | src/core/api_key_manager.py:327 | On whole-millisecond clocks, if and only if it is no longer than the window. |
| SlidingFailover.SlidingFailoverAttained | src/core/api_key_manager.py:285-293 | An outage after the script's window is full does allow twice the limit at one instant. |
| SlidingFailover.MillisecondLost | src/core/api_key_manager.py:327 | With a clock finer than a millisecond a full window can see three requests where twice the limit is two. |
| ApiKeyManager.Manager.CreateKey | src/core/api_key_manager.py:178-198 | A new key is active with the given limit, at least one, or else the default; no other record changes. |
| ApiKeyManager.Manager.RevokeKey | src/core/api_key_manager.py:200-210 | An active key is deactivated and its in-memory limiter state dropped; otherwise nothing changes. |
| ApiKeyManager.Manager.RotateKey | src/core/api_key_manager.py:212-230 | The replacement keeps the limit and starts clean; the old key is deactivated and its state dropped. |
| ApiKeyManager.Manager.CheckMemorySlidingWindow | src/core/api_key_manager.py:371-387 | The pop loop is the specified deque step for that key, and other keys' deques stay. |
| ApiKeyManager.Manager.CheckMemoryFixedWindow | src/core/api_key_manager.py:350-369 | The specified counter-tuple step for that key, and other keys' tuples stay. |
| ApiKeyManager.Manager.CheckMemory | src/core/api_key_manager.py:248-259 | One step of the configured in-memory strategy for that key; the other strategy's state and other keys' stay. |
| ApiKeyManager.Manager.CheckDistributed | src/core/api_key_manager.py:261-293 | With the memory backend, or while the server is marked down, nothing reaches it. Otherwise it answers unless the call fails; a lost answer still counts there, and any failure marks it down for 30 seconds. |
| ApiKeyManager.Manager.LimitOf | src/core/api_key_manager.py:235-242 | The first locked section: the limit of an active key, at least one. |
| ApiKeyManager.Manager.Consume | src/core/api_key_manager.py:243-259 | The second: the answer and the state of the key are those of the in-memory limiter on the memory backend, while marked down, and after a lost request or answer, and those of the server otherwise; the server moves exactly when the request arrived; no other key's state moves; only active keys hold memory state afterwards if and only if the key is still active or Redis answered. |
| ApiKeyManager.Manager.CheckRateLimit | src/core/api_key_manager.py:232-259 | Both in a row: an unknown or revoked key is denied and changes nothing; otherwise the call fares as said, with the key's own limit. |
| ApiKeyManager.Manager.FaresAlongPath | src/core/api_key_manager.py:232-293 | That is one step of the limiters' runs that the refinement and failover theorems speak of. |
| ApiKeyManager.Serve | src/core/api_key_manager.py:270-286 | Over any series of calls, for 30 seconds after a failed one no call touches the server. |
| ApiKeyManager.RevokedInFlight | src/core/api_key_manager.py:232-259 | A revocation between the two: the call is served and leaves memory state for an inactive key. |
| DomainRateLimiter.GrantsSpaced | src/ingestion/rate_limiter.py:25-39 | In every interleaving of any number of waiters, cancellations included, grants of one domain are at least the interval apart. |
| DomainRateLimiter.GrantedOnTime | src/ingestion/rate_limiter.py:30-39 | In every interleaving a waiter whose turn it is can be granted if and only if the last grant is an interval ago, and a waiter can take its turn if and only if no other of its domain has it. |
| DomainRateLimiter.DomainsIndependent | src/ingestion/rate_limiter.py:29-31 | Removing all steps of other domains leaves a schedule with the same grants at the same times for this one. |
| NoveltySnapshot.LoadSnapshot | src/processing/corroboration_refresh_support.py:36-47 | The loading loop builds the specified snapshot. |
| NoveltySnapshot.QueryIsLatest | src/processing/corroboration_refresh_support.py:167-185 | The query answers the latest stamp of live rows of other events under the key, if there are any. |
| NoveltySnapshot.SnapshotAnswersQuery | src/processing/corroboration_refresh_support.py:167-185 | For every evidence table, the snapshot lookup equals the direct maximum over live rows of other events. |
| NoveltySnapshot.LoadedWellFormed | src/processing/corroboration_refresh_support.py:44-47 | A loaded snapshot has one entry per event, newest first, and no empty group. |
| NoveltySnapshot.SyncSnapshot | src/processing/corroboration_refresh_support.py:56-92 | The sync loop builds, key by key, the other events' entries with the refreshed event's re-inserted in order. |
| NoveltySnapshot.SyncProperties | src/processing/corroboration_refresh_support.py:50-92 | A sync keeps the snapshot well-formed, leaves other events' entries and the event's own lookups alone, and keeps the event's first timestamp while its row lives. |
| NoveltySnapshot.TimestampKept | src/processing/corroboration_refresh_support.py:56-87 | The same over any series of syncs of any events. |
| NoveltyTable.LoadedStands | src/processing/corroboration_refresh_support.py:36-47 | A loaded snapshot holds, per key and event, the latest live stamp of the table, and nothing else. |
| NoveltyTable.SyncStands | src/processing/corroboration_refresh_support.py:50-92 | After a sync it holds that of the table whose rows of the refreshed event are those found, under their first stamps. |
| NoveltyTable.SyncedAnswersQuery | src/processing/corroboration_refresh_support.py:167-185 | After loading and any series of syncs every lookup, for whichever event, equals the direct query over the table so restamped. |
| GdeltCollector.Source.CollectQuery | src/ingestion/gdelt_client.py:146-254 | The paging loop reads the specified pages; a success has items fetched = stored + skipped and moves the watermark as specified, a failure leaves the watermark and counts one error. |
| GdeltCollector.ProcessPage | src/ingestion/gdelt_client.py:192-214 | Filtering and storing one page counts every article once, as stored or skipped, and tracks the newest date. |
| GdeltCollector.Oldest | src/ingestion/gdelt_client.py:683-694 | The oldest date on a page is attained and is a lower bound of all its dates. |
| GdeltCollector.CarriesOnIff | src/ingestion/gdelt_client.py:212-222 | The loop carries on exactly from a full page whose dates, of which there are some, all lie after the start, and then from a second below the oldest. |
| GdeltCollector.StoredCounted | src/ingestion/gdelt_client.py:192-210 | The stored count of a page is the number of its articles that were stored. |
| GdeltCollector.WindowStarts | src/ingestion/gdelt_client.py:469-485 | The first window reaches back the configured hours, at least one; a later one starts the overlap before the watermark. |
| GdeltPaging.EndsDecrease | src/ingestion/gdelt_client.py:177-222 | Whatever the service answers, window ends strictly decrease and there are at most max_pages pages. |
| GdeltPaging.NothingTwice | src/ingestion/gdelt_client.py:177-222 | Against a service that answers with the newest articles of the closed window, no article whose date parses is processed twice. |
| GdeltPaging.RepeatedIff | src/ingestion/gdelt_client.py:683-694 | An article is processed twice if and only if some page held it, older than every date there that parses, and the pages after it met it again; where the loop did not end early and no page cut it off, if and only if some page but the last so held it. |
| GdeltPaging.UndatedTwice | src/ingestion/gdelt_client.py:683-694 | A conforming service, of one dated article and an older undated one, whose second article is processed twice. |
| GdeltPaging.ProcessedIff | src/ingestion/gdelt_client.py:177-222 | An article of the window is processed if and only if no full page's oldest second cut it off and, where the page cap, an error or a full page without a date ended the loop, some page went back that far, or else it is undated and one of the pages happened to hold it, older than every date there or with no date at all. |
| GdeltPaging.TwinIsCut | src/ingestion/gdelt_client.py:216-222 | A conforming service, of two articles in one second and one to a page, whose second article is cut off. |
| GdeltPaging.WatermarkMonotone | src/ingestion/gdelt_client.py:509-528 | Over any series of successes and failures the watermark never decreases and is never lost. |
| GdeltPaging.NoGap | src/ingestion/gdelt_client.py:469-494 | Each window starts at or before the watermark; the reported gap is always zero and the reported overlap the configured one. |
| GdeltPaging.WatermarkIsNewest | src/ingestion/gdelt_client.py:196-201 | After a success the watermark is no older than anything read, and is the previous one, the date of an article read, or, when nothing dated was read, the clock. |
| GdeltPaging.WatermarkWithinClock | src/ingestion/gdelt_client.py:509-528 | One collection moves the watermark no further than its own clock, and only if it succeeds. |
| GdeltPaging.NothingSlipsBetween | src/ingestion/gdelt_client.py:146-254 | Over any series of collections, an article shown within the overlap of its publication, dated or not, is processed, cut off at a full page's oldest second, or left beyond where a collection ended early, by the first success that could see it. |
| GdeltPaging.LeftBehind | src/ingestion/gdelt_client.py:469-485 | An article older than the watermark by more than the overlap is never read again. |
| Provenance.ReportingWeight | alembic/versions/0027_add_event_provenance_corroboration.py:215-223 | Firsthand weighs 1, secondary 0.6, an aggregator 0.35, and anything else 0.5. |
| Provenance.KeysSeparateOrigins | alembic/versions/0027_add_event_provenance_corroboration.py:226-242 | With colon-free provider names two observations share a group key iff they have the same origin, and the key determines the group's kind. |
| Provenance.GroupAccumulator.Add | alembic/versions/0027_add_event_provenance_corroboration.py:85-103 | The accumulator describes its members so far, and the new one with them. |
| Provenance.Place | alembic/versions/0027_add_event_provenance_corroboration.py:158-175 | One observation extends the group its key names, makes it if it is new, and leaves every other group alone. |
| Provenance.SummarizeEventProvenance | alembic/versions/0027_add_event_provenance_corroboration.py:138-204 | The loops over mutable accumulators produce the specified summary, the fallback for an empty list included. |
| ProvenanceLaws.MemberCountsAddUp | alembic/versions/0027_add_event_provenance_corroboration.py:158-175 | Member counts over all groups sum to the number of observations. |
| ProvenanceLaws.GroupMeaning | alembic/versions/0027_add_event_provenance_corroboration.py:96-103 | Every group is not empty, has all the members of its key, and weighs the maximum of its members' weights, which one of them has. |
| ProvenanceLaws.GroupNames | alembic/versions/0027_add_event_provenance_corroboration.py:96-103 | A group names the sources, families and reporting types of its members, and no others. |
| ProvenanceLaws.GroupOfEach | alembic/versions/0027_add_event_provenance_corroboration.py:158-180 | Every observation has exactly one group in the summary. |
| ProvenanceLaws.ScoreIsSum | alembic/versions/0027_add_event_provenance_corroboration.py:188-191 | The score is the plain sum of the group weights, unaffected by floor and rounding, and lies between 0.35 and 1 per group. |
| ProvenanceLaws.PayloadIsLargest | alembic/versions/0027_add_event_provenance_corroboration.py:177-204 | Payload and truncated count make up the independent count, and no omitted group is larger than a shown one. |
| ProvenanceLaws.IndependentIsOrigins | alembic/versions/0027_add_event_provenance_corroboration.py:187 | The independent-evidence count is the number of different origins. |
| ProvenanceLaws.KindCountsAreOrigins | alembic/versions/0027_add_event_provenance_corroboration.py:193-198 | The syndication and near-duplicate counts are the numbers of different wire stories and of different repeated stories. |
| ProvenanceLaws.FingerprintsCounted | alembic/versions/0027_add_event_provenance_corroboration.py:152-157 | A fingerprint counts as often as observations carry it. |
| ProvenanceLaws.SummaryFigures | alembic/versions/0027_add_event_provenance_corroboration.py:121-136 | Raw and unique counts are cut off at zero, families counted once each, and without observations the event counts as many sources as callers know of, at least one. |
| ProvenanceLaws.SummaryPermutes | alembic/versions/0027_add_event_provenance_corroboration.py:138-204 | The whole summary is the same for every arrangement of the observations. |
| SourceCoverage.CoverageCounts.Apply | src/core/source_coverage.py:57-67 | All ten counters grow by the delta. |
| SourceCoverage.Accumulators.CountItem | src/core/source_coverage.py:495-504 | One item is counted in each of its slices, its counters made on first use. |
| SourceCoverage.Accumulate | src/core/source_coverage.py:475-504 | The loop leaves in the total and in every slice what the specification tallies. |
| SourceCoverage.TalliedIsTotal | src/core/source_coverage.py:475-504 | Each slice's counters are the sum over exactly the items that belong to it, and there is a row iff there is such an item. |
| CoverageCounting.TotalCountsEach | src/core/source_coverage.py:195-220 | Each of the ten counters of a list is the number of items that meet its own condition on status and language-policy marker. |
| CoverageCounting.SliceCountsEach | src/core/source_coverage.py:475-504 | So it is in every slice, over the slice's own items. |
| CoverageCounting.SlicesAre | src/core/source_coverage.py:483-504 | An item is counted under its language, its source's family and tier and each of its topics, and nowhere else. |
| CoverageLaws.TotalBalancedIff | src/core/source_coverage.py:195-220 | seen = processable + deferred + skipped and processed = classified + noise + error for every list; processable = pending + processing + processed iff every item let through has a valid status. |
| CoverageLaws.RowBalancedIff | src/core/source_coverage.py:475-504 | The same for every row, with the condition on the row's own items. |
| CoverageLaws.RowsAddUp | src/core/source_coverage.py:475-504 | Field by field, the rows of a dimension sum to each item's figure times its number of keys there. |
| CoverageLaws.RowsAgainstTotal | src/core/source_coverage.py:475-504 | Rows of each single-valued dimension sum to the total in all ten fields; topic rows sum to at least it. |
| CoverageLaws.RowsMostSeenFirst | src/core/source_coverage.py:340-361 | Rows of a dimension come most seen first, ties by key. |
| CoverageAlerts.IndexPreviousSeen | src/core/source_coverage.py:246-273 | The nested loops index the last entry of each slice, slices in order of first appearance. |
| CoverageAlerts.BuildAlerts | src/core/source_coverage.py:276-337 | The loops over total, rows and vanished slices produce the specified alerts, sorted and cut at 20. |
| CoverageAlerts.BuildSourceCoverageReport | src/core/source_coverage.py:475-536 | Total, rows per dimension and alerts are those of the specification. |
| CoverageAlertLaws.DropsNamedOnce | src/core/source_coverage.py:276-337 | Against any snapshot the untruncated alerts name each slice that fell from at least 5 to half or less exactly once, vanished ones included, with both figures and the right severity, and no other slice. |
| CoverageAlertLaws.ReportShows | src/core/source_coverage.py:506-536 | The report shows a total that counts the items, the rows of the four dimensions, and the first twenty alerts. |
| CoverageAlertLaws.RowsCountEach | src/core/source_coverage.py:475-504 | There is one row for each slice an item belongs to, and it counts the slice's own items. |
| CoverageAlertLaws.CapKeepsGravest | src/core/source_coverage.py:329-337 | When alerts are cut at 20, none that is omitted is graver than one that is shown: critical before not, then the larger drop. |
| CoverageAlertLaws.PayloadRead | src/core/source_coverage.py:246-273 | A stored report is read as its total, if readable, and its readable rows under normalised names, the empty name as "unknown". |
| CoverageAlertLaws.StoredRoundTrip | src/core/source_coverage.py:246-273 | With normalised keys, indexing a stored report gives back what it saw in the total and in each row, and nothing else. |
| CoverageAlertLaws.ConsecutiveReports | src/core/source_coverage.py:276-337 | With normalised keys a slice is named against the report before it iff that one saw at least 5 and this one sees half or fewer. |
| CoverageAlertLaws.OwnSnapshotSilentIff | src/core/source_coverage.py:246-273 | A report is silent about its own snapshot if and only if, for every row of at least 5 that is the last filed under its normalised slice, that slice shows more than half as many. |
| CoverageAlertLaws.OwnSnapshotKeysIff | src/core/source_coverage.py:264-272 | Where no two rows file under one slice and normalising twice changes nothing more, it is silent if and only if every row of at least 5 is filed under its own key. |
| CoverageAlertLaws.UnnormalisedKeyAlarms | src/core/source_coverage.py:264-272 | Without normal forms that are stable: a row of at least 5 that alone files under a slice without a row is reported as vanished. |
| CoverageAlertLaws.SpacedKeyAlarms | src/core/source_coverage.py:154-165 | A concrete case: five items under the language key "x ", against their own snapshot, raise a critical alert for "x". |

## Left out

- Floating point: exp, log, pow and sqrt on doubles, the conversion between probability and log-odds, and the clamping there. Values are exact reals except for the six-decimal columns.
- Missing rows: the fallback branches for an absent trend row, null state-version ids and null baselines (`src/core/trend_engine.py:475-489`, `src/core/trend_engine.py:699-703`, `src/core/trend_restatement.py:157-158`).
- The backfill of migration 0030, which attaches older evidence to a state that starts from the live value. The run theorems start from a created trend, and a legal run has no ledger entry older than its state.
- Clocks that run backwards: legal runs do not step back past the row's last write, and the limiter theorems take non-decreasing request times. The Redis server's clock may gain at most a second on the caller's between two script evaluations, and run ahead by at most one second for the counters.
- TrendSerializability.SerialEquivalence: activations and invalidations are not interleaved with the transactions, and retries are whole. A restatement reads the row when its turn comes; one that keeps a reading from earlier in its transaction is covered by TrendStaleness.AlwaysAsMeantIff, which allows any readings.
- TrendDeadlock.DeadlockIff: covers the row lock, its shares and the index entries of one trend; locks on events, on state versions and on other trends are not modelled.
- TrendStore.Trend: the in-memory copy of the row that the caller holds, and its refresh, which is skipped for a net delta of zero (`src/core/trend_restatement.py:181-183`). The tolerance of `matches_projection` is not modelled.
- FixedWindow.FailoverCap: one process, as in SlidingFailover.SlidingFailoverCap; several processes with a memory limiter each are not modelled, and their number would multiply the memory half of the cap.
- ApiKeyManager.Manager: raw keys, hashing, persistence and the authentication path.
- GdeltPaging.ProcessedIff: the index works in whole seconds and a date that parses is its own. HTTP, retries, filters and deduplication are parameters of the collection.
- GdeltPaging.NothingSlipsBetween: articles that the service shows later than the overlap after their publication.
- Provenance: the regular expressions and URL rules that derive fingerprint, syndicator and family are fields of the observation, and the sorted lists of a group are kept as the sets they are sorted from.
- SourceCoverage: text normalisation, labels, display ratios and alert messages; the nested dictionaries per dimension are one dictionary keyed by dimension and key.
- NoveltySnapshot: the novelty score computed from the last-seen time.
- Settings, YAML, LLM calls, HTTP routes, Celery, metrics, dashboards, calibration, reports and workflow scripts: I/O or single-branch arithmetic.
