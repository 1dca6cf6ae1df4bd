# Norvii evaluation: a Dafny model

It models the parts of the repository where state, several writers or recursive data meet:

- **The evaluation run ledger.** A run is a set of cases. Workers claim batches of cases under a lease, answer each one
  by completing it or releasing it for retry, and the repository finalises the run once no case is open. The tables and
  the four transactions are a state machine (`Ledger`) whose steps are refined by a class with the tables as fields
  (`LedgerStore.Repository`) and driven by the worker (`EvaluationWorker.Worker`, its answers in `WorkerAnswers`). Every
  theorem named after histories ranges over all sequences of calls by any number of workers, with any clock readings and
  any rows locked by others.
- **Scoring and comparison**, on both sides of the ledger. Scoring turns an agent result into the ten metrics the ledger
  demands; comparison reads finished runs back and sums the same metrics again. `LedgerFinal`, `LedgerComparison` and
  `RunCreation` prove that the three agree: scored results are storable, every finished run is a valid comparison input,
  and a run compared with itself reproduces the aggregates stored at finalisation.
- **Snapshot releases.** Publish, Stage, Activate and Initialize over immutable snapshots and one versioned pointer per
  corpus.
- **Dataset assets.** The duplicate-field check over a JSON token stream, the canonical JSON printer (values as in
  section 4 of RFC 8259, read back by a reader of sections 2 and 7), and the pairing, starter and rank validators.
- **The chat stream**: the browser's incremental record splitter and the server's event writer (the blank-line framing of
  section 9.2 of the WHATWG HTML Standard).
- **Hybrid retrieval**: the evidence merge and the filter on graph plans.

Each transaction is one atomic step and a failed one leaves the tables as they were. Lease tokens come from a counter,
run and row identifiers from the caller, and the clock is a number given to each call. SHA-256 is a function parameter;
a lemma that needs it to tell two texts apart names the two texts. Metric values are reals. Integer columns keep their
width: a number that does not fit is refused where the database or the read of a sum refuses it.

## How the proofs are arranged

`Ledger` defines the tables and the meaning of each transaction; `LedgerInvariant` shows that every transaction keeps one
invariant; `LedgerHistory` (fencing, immutability), `LedgerRetry` (attempt limits, termination) and `LedgerFinal`
(finalisation) draw the consequences. `LedgerOutcomes` says what each call leaves in the tables column by column,
`LedgerContent` what every stored row therefore says after any history, `ScoredOutcomes` how an agent's report ends up in
them; `ComparisonReport` and `SnapshotOutcomes` do the same for comparisons and snapshot commands. `LedgerStore` shows
that the imperative transactions, with their loops over positions, required names and metric rows, compute exactly those
steps. The other modules follow the same scheme: a specification function, a method with the loops of the original proved
equal to it, and lemmas about the function.

## What the code does not promise

- **The attempt limit does not bound claims.** `Claim` takes back an expired lease without looking at the attempt count.
  `LedgerRetry.ClaimExceedsLimitExactlyOnReclaim` gives the exact condition. Reclaims go on until the 32-bit attempt
  counter is full (`LedgerRetry.ReclaimsFillTheColumn`); then the whole claim fails, and the case, if it is the oldest,
  blocks every other one (`LedgerRetry.FullCounterBlocksTheQueue`). What the limit does bound is in
  `LedgerRetry.RetriesAreBounded`; without reclaims every case and every run ends within twice the limit moves per case
  (`LedgerRetry.RunsTerminateWithinTwiceTheLimit`).
- **The worker accepts results the store refuses.** `WorkerAnswers.CompletionTakenExactly` states the store's further
  demands. The agent adapter attaches no metrics, so every completion or abstention it reports is refused
  (`EvaluationWorker.AgentRepliesAreRefused`) and a run fed by it alone can only end as failed
  (`EvaluationWorker.UnscoredRunsFail`). Results scored by `ScoreCaseV1` are taken exactly when the numbers of their
  evidence and the sums of the run fit (`EvaluationWorker.ScoredAnswersAreTaken`).
- **A refused result stops the batch.** The comment above the worker promises that a processor failure is released for
  retry and never stops unrelated cases. It says nothing of results, and `RunOnce` returns at the first store error other
  than a lost lease. `WorkerAnswers.BatchesEndAsAnswered` says exactly when a batch fails, whatever other workers do
  meanwhile, and which claims then keep their leases until they expire; `LedgerExamples.PlainReplyStopsTheBatch` is such a
  batch. For processor failures on cases with a question, the comment holds except when the configured attempt limit
  does not fit its column or the release settles the last open case of a run whose sums do not fit
  (`WorkerAnswers.ReleaseRejectedOnlyOnOverflow`; input in `LedgerExamples.LastAnswerIsRolledBack`).
- **Finalisation can fail.** The sums are read back into 64-bit integers; one beyond that range makes the read fail, and
  the last answer of the run is rolled back. `LedgerFinal.FinalizeFailsExactlyOnOverflow` says when, and
  `LedgerExamples.LastAnswerIsRolledBack` reaches such a ledger from empty tables.
- **The manifest text identifies members only while origins hold no line breaks.** Normalised addresses and file digests
  hold none (`apps/api/internal/source/domain/source.go:112`), the member table does not forbid them.
  `SnapshotManifest.LineBreakHidesMember` shows two lists with one text, `SnapshotRelease.LineBreakMisleadsHistory` three
  calls from the empty store after which Stage hands back other members,
  `SnapshotManifest.EqualTextsMeanEqualMembersExactly` when two lists with one text agree. Publish does not depend on it:
  overriding or extending a list always changes its text (`SnapshotManifest.ReplacementShows`).

## Model

| member | source | states |
|---|---|---|
| LedgerInvariant.EveryHistoryKeepsInvariant | apps/api/internal/evaluation/postgres/runs.go:94-441 | After any sequence of calls: a run is terminal exactly when all its cases are and exactly then has aggregates, its state and aggregates are those its case rows dictate; its cases are non-empty and distinct; leases sit only on leased cases of running runs under distinct tokens; terminal cases, and only they, carry exactly the ten metric rows under the run policy, none scored on a failed or cancelled case |
| LedgerInvariant.CreateRunKeepsInvariant | apps/api/internal/evaluation/postgres/runs.go:94-176 | A run created from a valid, storable request joins a sound ledger without disturbing it |
| LedgerInvariant.ClaimKeepsInvariant | apps/api/internal/evaluation/postgres/runs.go:180-254 | A claim of any batch, with any rows locked by others, keeps the ledger sound |
| LedgerInvariant.CompleteKeepsInvariant | apps/api/internal/evaluation/postgres/runs.go:258-309 | A completion, accepted or refused, keeps the ledger sound through finalisation |
| LedgerInvariant.ReleaseKeepsInvariant | apps/api/internal/evaluation/postgres/runs.go:313-363 | A release, returning the case or failing it at the limit, keeps the ledger sound |
| LedgerInvariant.FinalizeKeepsInvariant | apps/api/internal/evaluation/postgres/runs.go:417-441 | From tables in which only the finished run still lacks its state, finalisation restores the invariant |
| LedgerInvariant.ClaimAllRows | apps/api/internal/evaluation/postgres/runs.go:225-249 | Leasing a batch in sequence gives each selected case its own fresh token in selection order, one more attempt and the expiry, starts queued runs, and touches no other row |
| LedgerInvariant.TerminalTableIsComplete | apps/api/internal/evaluation/postgres/runs.go:602-644 | The metric rows a terminal result leaves are exactly the ten components under the run policy, none scored for a failure |
| LedgerInvariant.UnscoredTableIsComplete | apps/api/internal/evaluation/postgres/runs.go:653-670 | The rows written for a case failed at the limit are the ten components, all without arithmetic |
| LedgerHistory.EveryCallMovesCases | apps/api/internal/evaluation/postgres/runs.go:180-363 | Every call leaves a given case and its children alone, or takes it (one attempt, fresh token), returns it or settles it, as the arguments and the lease decide |
| LedgerHistory.TerminalCaseIsImmutable | apps/api/internal/evaluation/postgres/runs.go:225-309 | Once terminal, a case keeps its row, evidence and metric rows through every later history |
| LedgerHistory.CasesSettleOnce | apps/api/internal/evaluation/postgres/runs.go:256-309 | Over any history at most one completion or terminal release of a case succeeds |
| LedgerHistory.SupersededTokenStaysSuperseded | apps/api/internal/evaluation/postgres/runs.go:227-241 | A token a case no longer carries never comes back to it |
| LedgerHistory.SupersededCallsAreFenced | apps/api/internal/evaluation/postgres/runs.go:268-276 | After any history, Complete and ReleaseForRetry under a superseded token change nothing and report a lost lease |
| LedgerHistory.MovesSupersedeTheToken | apps/api/internal/evaluation/postgres/runs.go:236-249 | A case keeps its token exactly through the calls that do not move it |
| LedgerHistory.FinishedRunIsImmutable | apps/api/internal/evaluation/postgres/runs.go:417-451 | Finalisation happens once: a terminal run keeps its row and its aggregates through every later history |
| RunIdentities.IdentitySurvives | apps/api/internal/evaluation/postgres/runs.go:180-441 | No call changes the key or the experiment of a run, and only CreateRun adds one |
| RunIdentities.EveryHistoryKeepsNames | apps/api/internal/evaluation/postgres/runs.go:453-500 | No history produces a nil identifier or a blank experiment, so claims stay valid |
| LedgerRetry.RetriesAreBounded | apps/api/internal/evaluation/postgres/runs.go:311-363 | With a fixed limit: attempts count claims, a case returns to pending at most limit-1 times, and a pending case has made fewer claims than the limit |
| LedgerRetry.ClaimExceedsLimitExactlyOnReclaim | apps/api/internal/evaluation/postgres/runs.go:201-249 | A claim takes the attempt count above the limit if and only if it reclaims an expired lease whose attempts had reached it |
| LedgerRetry.ReclaimsFillTheColumn | apps/api/internal/evaluation/postgres/runs.go:201-249 | Any open case can be claimed again and again by reclaiming expired leases, whatever the attempt limit, until its counter has reached the largest 32-bit number |
| LedgerRetry.AttemptsFitTheColumn | apps/api/internal/evaluation/postgres/runs.go:236-244 | No history ever takes an attempt counter beyond its 32-bit column |
| LedgerRetry.FullCounterRejectsTheBatch | apps/api/internal/evaluation/postgres/runs.go:236-249 | A claim whose first candidate has a full attempt counter is rejected as a whole and changes nothing |
| LedgerRetry.FullCounterBlocksTheQueue | apps/api/internal/evaluation/postgres/runs.go:201-249 | The oldest case of a sound ledger, if open, can be reclaimed until its counter is full; from then on every claim that finds it unlocked and expired is rejected, whatever else is waiting |
| LedgerRetry.WideClaimTakesEveryCandidate | apps/api/internal/evaluation/postgres/runs.go:189-249 | A claim as large as the table, with no row locked, takes every claimable case exactly when each of their attempt counters can be raised |
| LedgerRetry.OpenCasesStayClaimable | apps/api/internal/evaluation/postgres/runs.go:178-249 | In every sound ledger an open case whose lease, if any, has expired can be claimed exactly while its attempt counter can be raised |
| LedgerRetry.MovesAreBounded | apps/api/internal/evaluation/postgres/runs.go:225-363 | Without reclaims, moves made plus the measure left never exceed twice the limit |
| LedgerRetry.CasesTerminateWithinTwiceTheLimit | apps/api/internal/evaluation/postgres/runs.go:225-363 | Without reclaims a case makes at most twice the limit moves, and one that made them all is terminal |
| LedgerRetry.RunsTerminateWithinTwiceTheLimit | apps/api/internal/evaluation/postgres/runs.go:225-441 | Without reclaims the cases of a run make at most twice the limit moves each, all together, and a run whose cases made them all is finished with its ten aggregates |
| LedgerRetry.MoveLowersMeasure | apps/api/internal/evaluation/postgres/runs.go:225-363 | Each claim of a pending case, return and settlement strictly lowers the measure of the case |
| LedgerFinal.RunStateFollowsCases | apps/api/internal/evaluation/postgres/runs.go:417-451 | A run is terminal exactly when all its cases are; completed exactly when none failed, failed exactly when all did |
| LedgerFinal.GroupsAreTheTenComponents | apps/api/internal/evaluation/postgres/runs.go:728-760 | The grouping query over complete case metrics yields exactly the ten components under one policy |
| LedgerFinal.CountsCoverEveryCase | apps/api/internal/evaluation/postgres/runs.go:728-760 | In each group the four state counts add up to the number of cases |
| LedgerFinal.ScoredGroupsDivide | apps/api/internal/evaluation/postgres/runs.go:798-810 | A group with a scored case has a positive denominator: the aggregate never divides by zero |
| LedgerFinal.FinishedRunHasTenAggregates | apps/api/internal/evaluation/postgres/runs.go:728-810 | A terminal run has exactly ten aggregates; counts add up to its cases, and value, numerator and denominator are present and consistent exactly when scored |
| LedgerFinal.FinalizeFailsExactlyOnOverflow | apps/api/internal/evaluation/postgres/runs.go:417-441 | With all cases terminal, finalisation fails exactly when one of the ten sums leaves the 64-bit range |
| LedgerExamples.LastAnswerIsRolledBack | apps/api/internal/evaluation/postgres/runs.go:798-810 | A reachable ledger whose last open case can be neither completed with a valid, storable result nor given up: both answers are rejected and rolled back, because two earlier latencies fill the integer column |
| LedgerFinal.MaterializedEvidencePassesFieldChecks | apps/api/internal/evaluation/postgres/runs.go:554-566 | Retrieved followed by cited evidence passes every check of the evidence store other than snapshot membership |
| LedgerFinal.ScoredResultsAreStorable | apps/api/internal/evaluation/postgres/runs.go:527-715 | An accepted agent result scored by version one, its evidence in the snapshot, passes every check of Complete exactly when the numbers of its evidence fit their 32-bit columns |
| LedgerFinal.SmallResultsFit | apps/api/internal/evaluation/postgres/runs.go:568-600 | They fit whenever retrieved items, citation markers and location ends stay below the largest 32-bit number |
| LedgerOutcomes.CompletionStoresResult | apps/api/internal/evaluation/postgres/runs.go:256-309 | A completion that is done leaves in the row of its case the state, answer, measurements and, null exactly when empty, grounding and failure code of the result; its evidence; and its ten metrics with state, value, numerator, denominator and rationale, all withheld for a failure. Every other case, run and child row is as before; a refused one changes nothing |
| LedgerOutcomes.StoredResultStays | apps/api/internal/evaluation/postgres/runs.go:256-309 | All of it is still stored after every later history |
| LedgerOutcomes.ReleaseStoresOutcome | apps/api/internal/evaluation/postgres/runs.go:313-363 | A release that is done queues the case again below the limit, without lease, failure code or children; at the limit it fails it under the code given, with ten withheld metrics; no other case changes |
| LedgerOutcomes.ClaimTakesOldest | apps/api/internal/evaluation/postgres/runs.go:189-249 | A claim that is done leases to the worker, until the expiry, as many cases as the batch allows of those that are unlocked, waiting or expired and in an unfinished run; in order of creation time and identifier, none older left out |
| LedgerStore.ClaimsNameTheirCases | apps/api/internal/evaluation/postgres/runs.go:189-224 | Each claim record carries its own case, run, corpus, snapshot, question, strategy, fingerprint, build and two models, and the attempt count, token and expiry of its row |
| LedgerOutcomes.CreateRunStoresRequest | apps/api/internal/evaluation/postgres/runs.go:94-176 | A run that is created is stored queued under its identity, with one waiting case per requested case and all expected evidence, and no old row changes; otherwise nothing is stored |
| LedgerOutcomes.AggregatesCountCases | apps/api/internal/evaluation/postgres/runs.go:728-810 | Each aggregate of a finished run counts its cases by metric state and sums the scored ones; it is scored exactly when some case is, else not scored exactly when some case is not scored, else in need of review exactly when some case is, and not applicable exactly when every case is |
| LedgerOutcomes.FailedRunsAreNotScored | apps/api/internal/evaluation/postgres/runs.go:798-810 | When every case of a finished run failed or was cancelled, all ten aggregates are not scored |
| LedgerContent.EveryHistoryKeepsContent | apps/api/internal/evaluation/postgres/runs.go:94-600 | After every history from empty tables: each case is one of the dataset revision of its run, with its expected outcome; an open case has no result, a completed one an answer, and a failure code stands exactly on failures; evidence is numbered from one per kind and lies in the snapshot of the run, and so does expected evidence, whose ordinals never repeat within a case |
| LedgerStore.Repository.CreateRun | apps/api/internal/evaluation/postgres/runs.go:94-176 | Computes the ledger step: all rows or none; when done, the run, its cases and its evidence are stored as requested and no old row changes |
| LedgerStore.Repository.Claim | apps/api/internal/evaluation/postgres/runs.go:180-254 | Computes the ledger step; the claims returned are the selected rows in claim order, each with its run configuration, new token, attempt count and expiry; one full attempt counter rejects the claim as a whole |
| LedgerStore.Repository.Complete | apps/api/internal/evaluation/postgres/runs.go:258-309 | Computes the ledger step; when done, row, evidence and metrics of the case hold the result column by column and every other case is as before |
| LedgerStore.Repository.ReleaseForRetry | apps/api/internal/evaluation/postgres/runs.go:313-363 | Computes the ledger step; when done on a sound ledger, the case is back in the queue below the limit, failed under the code with ten withheld metrics at it, and every other case is as before |
| LedgerStore.ValidateRunCases | apps/api/internal/evaluation/postgres/runs.go:480-500 | Accepts exactly cases with valid fields, distinct dataset cases and distinct positions; yields their run-case ids |
| LedgerStore.ValidateRunExpectedEvidence | apps/api/internal/evaluation/postgres/runs.go:502-514 | Accepts exactly well-formed evidence of the listed run cases |
| LedgerStore.ValidateRequest | apps/api/internal/evaluation/postgres/runs.go:453-462 | Accepts exactly the valid run requests |
| LedgerStore.ValidateTerminalResult | apps/api/internal/evaluation/postgres/runs.go:527-552 | Accepts exactly terminal results with an answer when completed, a failure code exactly when failed or cancelled, non-negative measurements and metrics with sound arithmetic |
| LedgerStore.InsertCases | apps/api/internal/evaluation/postgres/runs.go:119-139 | The row-by-row insert succeeds exactly when every case matches its dataset case, its position fits the column and no key repeats, and then adds exactly those rows |
| LedgerStore.InsertExpected | apps/api/internal/evaluation/postgres/runs.go:140-171 | The row-by-row insert succeeds exactly when every item is in the snapshot, its numbers fit their columns and no id or case ordinal repeats |
| LedgerStore.CheckActualEvidence | apps/api/internal/evaluation/postgres/runs.go:554-600 | The loop with one position counter per kind accepts exactly evidence numbered from one per kind, with valid fields that fit their columns, and in the snapshot |
| LedgerStore.CheckRequiredMetrics | apps/api/internal/evaluation/postgres/runs.go:697-715 | Striking names off the required set accepts exactly metric lists that name each of the ten components once |
| LedgerStore.PersistTerminalCaseMetrics | apps/api/internal/evaluation/postgres/runs.go:602-644 | Failures are stored as ten unscored rows; other results only with all ten under the run policy |
| LedgerStore.FindFirst | apps/api/internal/evaluation/postgres/runs.go:203 | Finds the candidate first by creation time, then id |
| LedgerStore.SelectForClaim | apps/api/internal/evaluation/postgres/runs.go:189-206 | Selects at most a batch of pending or expired cases of live runs, in order, skipping locked rows |
| LedgerStore.LeaseSelected | apps/api/internal/evaluation/postgres/runs.go:225-249 | Leasing in place, row by row, equals leasing the batch and stops exactly when an attempt counter is full; each claim record describes its new row |
| LedgerStore.CountGroup | apps/api/internal/evaluation/postgres/runs.go:728-745 | One row of the aggregate query: the four counts and the two sums over the scored rows of a group |
| LedgerStore.QueryGroups | apps/api/internal/evaluation/postgres/runs.go:728-760 | The aggregate query: one row per component and scorer version |
| LedgerStore.PersistAggregates | apps/api/internal/evaluation/postgres/runs.go:774-810 | Every group is written, or none when a sum does not fit |
| LedgerStore.FinalizeRunIfTerminal | apps/api/internal/evaluation/postgres/runs.go:417-451 | Counts by state, then aggregates and state exactly when no case is open; what the aggregates then say of the cases is AggregatesCountCases |
| WorkerAnswers.ValidateTerminalCaseResult | apps/api/internal/evaluation/application/worker.go:140-186 | Accepts exactly what the worker lets through to the store |
| EvaluationWorker.Worker.ReleaseForRetry | apps/api/internal/evaluation/application/worker.go:130-138 | A release; a lost lease is no failure |
| EvaluationWorker.Worker.ProcessCase | apps/api/internal/evaluation/application/worker.go:116-128 | One answer per claim: completion, or release with the code for a processor error or an invalid result |
| EvaluationWorker.Worker.ProcessBatch | apps/api/internal/evaluation/application/worker.go:100-114 | Answers claims in order, with any calls of other workers before each answer, and stops at the first one the store rejects; a batch handed out by a sound ledger ends as its answers decide |
| EvaluationWorker.Worker.RunOnce | apps/api/internal/evaluation/application/worker.go:100-114 | One claim of a batch, failing as a whole exactly when an attempt counter is full, then the answers up to the first rejection, whatever other workers do between them; the count is the number of claims. On a sound store it fails exactly when some answer is refused at its turn, at the first such answer; that claim and all later ones keep their leases until they expire exactly as far as no call moved their cases |
| WorkerAnswers.BatchesEndAsAnswered | apps/api/internal/evaluation/application/worker.go:98-114 | Whatever other workers do between the answers, a batch handed out by a sound ledger fails exactly when some answer is refused at its turn, at the first such answer; that claim and every later one keeps its lease until it expires exactly if no call moved its case, every earlier one loses it |
| WorkerAnswers.AnswerTakenExactly | apps/api/internal/evaluation/application/worker.go:116-138 | An answer is done, refused or finds its lease lost, each exactly when stated: refused when malformed, or when the lease is live and the store demands or the sums of the run are not met; lost when well formed without the lease; only a done answer changes anything |
| WorkerAnswers.AnswersAreStored | apps/api/internal/evaluation/application/worker.go:116-138 | An answer that is done is stored: an accepted result as it is; otherwise one more turn, or at the limit a failure under the code for a processor error or for an invalid result |
| WorkerAnswers.CompletionTakenExactly | apps/api/internal/evaluation/application/worker.go:124-127 | A completion the worker lets through is taken exactly when the store-only demands hold and the sums of the run fit |
| WorkerAnswers.ReleaseRejectedOnlyOnOverflow | apps/api/internal/evaluation/application/worker.go:79-80 | A processor failure is rejected, and so stops its batch, exactly when the attempt limit does not fit its column or the release settles the last open case of a run whose sums do not fit |
| WorkerAnswers.LeaseSurvivesExactly | apps/api/internal/evaluation/postgres/runs.go:225-363 | A claim keeps its lease through a history of any calls exactly when no call moves its case, and then its row is as it was |
| WorkerAnswers.KeptExactly | apps/api/internal/evaluation/postgres/runs.go:201-249 | A claim of a batch still holds its lease after a history, and its case becomes claimable again exactly at the expiry, if no call moved the case; otherwise its lease is gone |
| WorkerAnswers.TurnTakenExactly | apps/api/internal/evaluation/application/worker.go:108-112 | The answer of each turn is rejected, done or finds the lease lost exactly as the ledger at that turn decides, and only a done one changes it |
| WorkerAnswers.TimelyHistoryDisturbsNothing | apps/api/internal/evaluation/postgres/runs.go:201-249 | Calls that neither claim at or after the expiry nor answer under the token of a claim never move its case |
| WorkerAnswers.TimelyTurnsHoldTheirLease | apps/api/internal/evaluation/application/worker.go:98-114 | While other workers are timely in that sense, every claim of a batch holds its lease at its turn: no answer finds it lost |
| WorkerAnswers.TimelyBatchKeepsLeases | apps/api/internal/evaluation/application/worker.go:98-114 | Then the refused claim and every later one still hold their leases after the batch, and block their cases until the expiry |
| LedgerExamples.PlainReplyStopsTheBatch | apps/api/internal/evaluation/application/worker.go:108-112 | A reachable ledger with two claimed cases: the first plain agent reply is refused, the second case is never answered, both keep their leases |
| LedgerExamples.FirstRefusalEndsTheBatch | apps/api/internal/evaluation/application/worker.go:108-112 | Whenever the first answer is not acceptable, no one else acting, the batch ends there, the ledger is as claimed and every claim keeps its lease |
| WorkerAnswers.AnsweredLeaseIsGone | apps/api/internal/evaluation/application/worker.go:116-138 | An answer that is not rejected ends the lease for good: no later state shows it again |
| WorkerAnswers.CleanBatchLeavesNoLease | apps/api/internal/evaluation/application/worker.go:98-114 | A batch that ends without an error leaves none of its leases behind |
| WorkerAnswers.FreshClaimsNameTheirRun | apps/api/internal/evaluation/postgres/runs.go:189-224 | Claims handed out hold their lease and name the run, corpus and snapshot of their case |
| EvaluationWorker.AnswerWithoutMetricsShowsTheGap | apps/api/internal/evaluation/agent/processor.go:56-60 | A concrete reply that passes the worker and that no scoring policy makes storable |
| EvaluationWorker.UnscoredHistoriesOnlyFail | apps/api/internal/evaluation/agent/processor.go:32-60 | In histories whose completions carry no metrics a terminal case is always a failure |
| EvaluationWorker.UnscoredRunsFail | apps/api/internal/evaluation/agent/processor.go:32-60 | Fed only completions without metrics, every run that finishes is failed, and its ten aggregates are all not scored |
| EvaluationWorker.AgentRepliesAreHandedOn | apps/api/internal/evaluation/agent/processor.go:32-60 | The adapter hands on what the agent reported exactly as scoring would have it stored, but for the metrics it leaves out |
| EvaluationWorker.UnavailableIdentityFailsTheCase | apps/api/internal/evaluation/agent/processor.go:42-45 | When the frozen identity is unavailable the case is failed under that code, exactly if the sums of its run fit |
| EvaluationWorker.ScoredAnswersAreTaken | apps/api/internal/evaluation/application/worker.go:116-128 | A scored result passes the worker and is recorded exactly when its evidence fits the columns and finalisation does not overflow |
| ScoredOutcomes.ScoredAnswersAreStored | apps/api/internal/evaluation/postgres/runs.go:268-309 | A scored result that is done is stored in terms of the agent report: its state, answer, measurements and retrieved items; the measurements again as numerators; one point for abstention exactly if it was expected and happened; retrieval coverage as the share of expected locations; only withheld metrics for a failure |
| Scoring.MarkerSpansExact | apps/api/internal/evaluation/application/scoring.go:154-164 | The scanner finds exactly the bracketed digit runs, left to right and disjoint |
| Scoring.ParseCitationMarkers | apps/api/internal/evaluation/application/scoring.go:154-164 | Positions, values and validity of all markers |
| Scoring.RenderedMarkersRecovered | apps/api/internal/evaluation/application/scoring.go:154-164 | Ranks rendered into text without opening brackets are read back in order, valid exactly when within the retrieved count |
| Scoring.MaterializeCaseResult | apps/api/internal/evaluation/application/scoring.go:125-150 | Accepts exactly consistent results with valid provenance and derives retrieved records, markers and cited records |
| Scoring.CitedEvidence | apps/api/internal/evaluation/application/scoring.go:198-211 | The loop yields the record of each valid marker, numbered from one |
| Scoring.CitedComesFromRetrieved | apps/api/internal/evaluation/application/scoring.go:198-211 | Cited records are numbered from one, carry a marker position and repeat a retrieved provenance |
| Scoring.CitedFollowMarkers | apps/api/internal/evaluation/application/scoring.go:198-211 | Each marker that resolves cites the retrieved record of its rank, in marker order |
| Scoring.RenderedRanksAreCited | apps/api/internal/evaluation/application/scoring.go:125-211 | An answer that renders ranks cites exactly the retrieved items of the ranks in range, in the order in which it names them |
| Scoring.EvidenceIdentityInjective | apps/api/internal/evaluation/application/scoring.go:356-361 | On validated provenance equal text keys mean equal provenance |
| Scoring.ExpectedCoverage | apps/api/internal/evaluation/application/scoring.go:334-354 | Counts the expected keys found among the actual ones, and the distinct expected keys |
| Scoring.CoverageCountsLocations | apps/api/internal/evaluation/application/scoring.go:334-354 | Both counts are sizes of sets of evidence locations: keys neither merge nor split them |
| Scoring.CitationCoverageWithinRetrieval | apps/api/internal/evaluation/application/scoring.go:284-288 | Citation coverage never exceeds retrieval coverage |
| Scoring.CountedMarkerMetric | apps/api/internal/evaluation/application/scoring.go:370-394 | Valid markers over all markers, not applicable without markers |
| Scoring.ValidMarkersAreCited | apps/api/internal/evaluation/application/scoring.go:198-211 | The number of valid markers is the number of cited records |
| Scoring.EvidenceMetricsReport | apps/api/internal/evaluation/application/scoring.go:284-290 | The two coverage metrics are the shares of expected locations retrieved and cited, in order between zero and one; the two marker metrics are the quotient of cited records and markers; each carries the explanation of its case |
| Scoring.OutcomeMetricsReport | apps/api/internal/evaluation/application/scoring.go:291-296 | Abstention is not applicable exactly when an answer is expected, one exactly when abstention was expected and happened, zero exactly when an answer came in its place; execution is 1/1; latency and tokens carry their own measurement over one, or are not applicable exactly without it; semantic support needs review; each carries the explanation of its case |
| Scoring.FailuresAreNotScored | apps/api/internal/evaluation/application/scoring.go:281-283 | A failed or cancelled case gets the ten components, none of them scored, whatever it retrieved or measured |
| Scoring.ScoreCaseV1 | apps/api/internal/evaluation/application/scoring.go:270-299 | Scores exactly the valid inputs; the ten metrics report evidence and outcome as in EvidenceMetricsReport and OutcomeMetricsReport, and a failure scores nothing |
| Scoring.AcceptedResultsAreScoreable | apps/api/internal/evaluation/application/scoring.go:305-332 | Whatever materialisation accepts, the scorer accepts |
| Scoring.ScoresAreStorable | apps/api/internal/evaluation/application/scoring.go:270-299 | A score names each required component once and every metric passes the ledger check |
| Scoring.UnscoredSetIsComplete | apps/api/internal/evaluation/application/scoring.go:419-429 | The metrics of a failed case are the ten components, all storable |
| Comparison.ValidateComparisonMetric | apps/api/internal/evaluation/application/comparison.go:232-250 | Accepts exactly an unseen required metric under the policy, with arithmetic exactly when scored and no score on a failure |
| Comparison.ValidateComparisonMetrics | apps/api/internal/evaluation/application/comparison.go:216-230 | Accepts exactly the ten components once each |
| Comparison.ValidateComparisonCases | apps/api/internal/evaluation/application/comparison.go:192-214 | Accepts exactly non-empty distinct terminal cases with valid metrics |
| Comparison.ValidateComparisonRun | apps/api/internal/evaluation/application/comparison.go:178-190 | Accepts exactly the finished runs with the wanted id and a full key |
| Comparison.IndexComparisonCases | apps/api/internal/evaluation/application/comparison.go:338-346 | The map of cases by dataset case |
| Comparison.CompareCaseMetrics | apps/api/internal/evaluation/application/comparison.go:352-370 | One pair adds both sides of each component scored on both sides and nothing else |
| Comparison.PairCases | apps/api/internal/evaluation/application/comparison.go:288-328 | One pass in any map order counts pairs, unpaired and failed pairs, and sums over exactly the eligible pairs |
| Comparison.CompareCases | apps/api/internal/evaluation/application/comparison.go:288-328 | Totals and the ten deltas of the two indexes |
| Comparison.SortedMetricDeltas | apps/api/internal/evaluation/application/comparison.go:377-394 | The deltas in name order; a scored one carries the quotients of its own sums and the right one minus the left, any other none |
| Comparison.AlphabeticalIsTextOrder | apps/api/internal/evaluation/application/comparison.go:377-394 | The listing used is the strict text order of the ten stored names |
| Comparison.ScoredDeltasDivide | apps/api/internal/evaluation/application/comparison.go:377-394 | A scored delta has positive denominators on both sides |
| Comparison.ComparisonDifferences | apps/api/internal/evaluation/application/comparison.go:267-286 | Lists the key fields that differ, in order |
| Comparison.CompareRuns | apps/api/internal/evaluation/application/comparison.go:148-176 | Compares exactly when both runs are valid; each scored component shows its quotients and the right one minus the left |
| Comparison.ComparableExactlyOnEqualKeys | apps/api/internal/evaluation/application/comparison.go:160-176 | Comparable exactly when the whole keys agree; the experiment may differ |
| Comparison.TotalsConserveCases | apps/api/internal/evaluation/application/comparison.go:288-328 | Each side: cases are paired or unpaired; pairs are eligible or lost to failure |
| Comparison.DeltasCountEligiblePairs | apps/api/internal/evaluation/application/comparison.go:352-370 | No component sums more pairs than are eligible |
| Comparison.ResultIgnoresCaseOrder | apps/api/internal/evaluation/application/comparison.go:288-395 | The result is the same for every order of either run |
| Comparison.SwappingRunsSwapsTheResult | apps/api/internal/evaluation/application/comparison.go:288-395 | Swapping the runs swaps totals, sums and values and negates every delta |
| Comparison.SelfComparisonIsZero | apps/api/internal/evaluation/application/comparison.go:352-395 | Comparing a run with itself gives equal sums on both sides and every scored delta zero |
| ComparisonReport.ResultsAreReports | apps/api/internal/evaluation/application/comparison.go:148-176 | A comparison of two valid runs, in terms of their cases and metrics alone: totals by state and pairing; per component the number of pairs scored on both sides and the four sums over them; a scored component has the two quotients and the right one minus the left, positive exactly when the right is larger, any other has none; differing key fields are named exactly and in order; each side shows its own experiment |
| ComparisonReport.JointlyIsScoredPairs | apps/api/internal/evaluation/application/comparison.go:294-305 | Leaving out failed and cancelled cases loses no pair: the pairs summed are all that are scored on both sides |
| ComparisonReport.StoredRunsAreReported | apps/api/internal/evaluation/postgres/comparison.go:16-108 | Comparing two finished runs of a sound ledger reports on exactly their stored cases, states and scores; they are comparable exactly when their stored keys agree |
| LedgerComparison.ReadComparisonCases | apps/api/internal/evaluation/postgres/comparison.go:56-108 | Reads all cases of the run by position, each with its metrics by name |
| LedgerComparison.ReadComparisonRun | apps/api/internal/evaluation/postgres/comparison.go:16-54 | Reads an existing run and no other |
| LedgerComparison.FinishedRunsAreValid | apps/api/internal/evaluation/application/comparison.go:178-265 | In a sound ledger a run read back passes validation exactly when it is finished |
| LedgerComparison.ReachableRunsAreValid | apps/api/internal/evaluation/application/comparison.go:178-265 | The same after any history of calls by any workers from the empty ledger |
| LedgerComparison.SelfComparisonReproducesAggregates | apps/api/internal/evaluation/application/comparison.go:288-395 | For each component the sums of the self-comparison are the stored numerator and denominator, scored in one exactly when in the other, values equal and delta zero |
| LedgerComparison.ReachableRunsReproduceAggregates | apps/api/internal/evaluation/postgres/runs.go:728-810 | The same after any history of calls from the empty ledger |
| LedgerComparison.ComparisonNeverOverflows | apps/api/internal/evaluation/application/comparison.go:352-370 | Sums over any pairs of a finished run stay in the 64-bit range |
| LedgerComparison.ComparisonService.Compare | apps/api/internal/evaluation/application/comparison.go:148-176 | On a sound store a comparison succeeds exactly for two existing finished runs |
| RunCreation.OrderedCaseSetSHA256 | apps/api/internal/evaluation/postgres/inspection.go:113-119 | Feeding lines to the hash equals hashing the whole preimage |
| RunCreation.PreimageInjective | apps/api/internal/evaluation/postgres/inspection.go:113-119 | Equal preimages list the same cases in the same order |
| RunCreation.MakeRunCases | apps/api/internal/evaluation/postgres/inspection.go:34-43 | A run case per dataset case, and the map between them |
| RunCreation.RunExpectedEvidence | apps/api/internal/evaluation/postgres/inspection.go:121-148 | Builds evidence exactly for locators of selected cases; each item follows the plan with the next ordinal of its case |
| RunCreation.PlannedOrdinalsDiffer | apps/api/internal/evaluation/postgres/inspection.go:121-148 | No two planned items share a run case and ordinal |
| RunCreation.CreateEvaluationRun | apps/api/internal/evaluation/postgres/inspection.go:20-51 | Builds a request exactly for a matching plan and usable locators and hands it to CreateRun; otherwise nothing changes |
| RunCreation.CreatedRunHoldsCaseSet | apps/api/internal/evaluation/postgres/inspection.go:20-51 | A created run holds exactly the case set its key digests, through every later history |
| RunCreation.CreatedRunIsAsPlanned | apps/api/internal/evaluation/postgres/runs.go:94-176 | A created run is stored as planned: requested configuration and digests, one waiting case per listed dataset case with its position and expected outcome, one evidence row per resolved locator, attached to the case of its dataset case |
| RunCreation.ComparableRunsPairCompletely | apps/api/internal/evaluation/application/comparison.go:160-176 | When the hash tells the two case-set preimages apart, comparable runs have no unpaired cases |
| SnapshotRelease.ReachableStoresAreSound | apps/api/internal/snapshot/postgres/repository.go:107-292 | After any history: one snapshot per corpus and manifest, each non-empty with distinct sources, storable members and its own manifest, every active snapshot present in its corpus |
| SnapshotRelease.EveryHistoryKeepsStore | apps/api/internal/snapshot/postgres/repository.go:107-292 | The same from any sound store |
| SnapshotRelease.EveryCallSteps | apps/api/internal/snapshot/postgres/repository.go:107-292 | Any call changes no stored snapshot and raises the version by exactly one when it changes a pointer |
| SnapshotRelease.HistoryOnlyAdds | apps/api/internal/snapshot/postgres/repository.go:309-407 | Over histories snapshots never change, versions never fall, and an unchanged version means an unchanged release |
| SnapshotRelease.EqualVersionsMeanEqualReleases | apps/api/internal/snapshot/postgres/repository.go:191-247 | Two points of a history with the same version have the same active snapshot |
| SnapshotRelease.MoversExpectTheVersion | apps/api/internal/snapshot/postgres/repository.go:107-292 | A call that moves a pointer is a Publish or Activate of that corpus expecting its current version, or an Initialize of a corpus without release |
| SnapshotRelease.OneMovePerExpectedVersion | apps/api/internal/snapshot/postgres/repository.go:107-292 | Of all calls that expect one version at most one moves the pointer |
| SnapshotRelease.StageMovesNothing | apps/api/internal/snapshot/postgres/repository.go:150-188 | Staging moves no pointer |
| SnapshotRelease.PublishChangesOneSource | apps/api/internal/snapshot/postgres/repository.go:107-148 | After every successful Publish, created or not, the active members are the old ones with the candidate overriding or extending its source, one per source; the version rises by one exactly when a snapshot was created, and otherwise nothing changes |
| SnapshotManifest.ReplacementShows | apps/api/internal/snapshot/postgres/repository.go:553-576 | Overriding or extending a member list leaves its manifest text alone exactly when the candidate is already in it, whatever its origins hold |
| SnapshotManifest.MemberLineIdentifies | apps/api/internal/snapshot/postgres/repository.go:558-562 | A member is recovered from its manifest line, even when its origin holds bars or line breaks |
| SnapshotManifest.EqualTextsMeanEqualMembersExactly | apps/api/internal/snapshot/postgres/repository.go:553-565 | Two lists with one manifest text have the same members exactly when their origins hold line breaks in the same places |
| SnapshotManifest.ManifestTextIdentifies | apps/api/internal/snapshot/postgres/repository.go:553-565 | Without line breaks in origins, equal manifest texts mean equal members, and only they do |
| SnapshotManifest.LineBreakHidesMember | apps/api/internal/snapshot/postgres/repository.go:558-563 | Any two members share their manifest text with one storable member whose origin holds a line break |
| SnapshotRelease.OneSnapshotPerMemberSet | apps/api/internal/snapshot/postgres/repository.go:317-324 | A corpus holds at most one snapshot of a set of members |
| SnapshotRelease.StageOffersRequestedExactly | apps/api/internal/snapshot/postgres/repository.go:369-407 | Stage hands back the active members overridden by the candidate, stored or found, exactly when both lists hold line breaks in the same places |
| SnapshotRelease.StageOffersRequested | apps/api/internal/snapshot/postgres/repository.go:151-188 | Where origins never hold line breaks, Stage does so after every history |
| SnapshotRelease.LineBreakMisleadsStage | apps/api/internal/snapshot/postgres/repository.go:369-407 | With a line break in a stored origin, Stage hands back a snapshot of other members |
| SnapshotRelease.LineBreakMisleadsHistory | apps/api/internal/snapshot/postgres/repository.go:369-407 | From the empty store three calls get there: stage a member with a line break in its origin, initialize with one member, stage another; the last hands back the snapshot of the first |
| SnapshotManifest.DecimalStampsQualify | apps/api/internal/snapshot/postgres/repository.go:558-562 | Decimal instants meet what the lemmas ask of the time format |
| SnapshotRelease.RepeatedPublishIsUncreated | apps/api/internal/snapshot/postgres/repository.go:317-324 | The same Publish at the version it produced returns the same release uncreated and writes nothing |
| SnapshotOutcomes.CandidateIsReadyDocument | apps/api/internal/snapshot/postgres/repository.go:512-551 | A document becomes a member, with its own revision, origin, time and digest, exactly when it is published and its artifacts are complete; the two refusals tell which is missing |
| SnapshotOutcomes.ReadyMembersAreAllReady | apps/api/internal/snapshot/postgres/repository.go:479-510 | The latest documents are all taken, in order, exactly when each is ready |
| SnapshotOutcomes.ActivateLeavesActive | apps/api/internal/snapshot/postgres/repository.go:191-247 | An activation that succeeds leaves the requested snapshot active and hands back the stored release, the version raised by one exactly when another or none was active; it succeeds exactly when the command is valid, the version the expected one, the snapshot one of the corpus with a ready graph, and a needed move fits the column |
| SnapshotOutcomes.PublishLeavesActive | apps/api/internal/snapshot/postgres/repository.go:107-148 | A publication succeeds exactly when the command is valid, the version the expected one, the document ready, and the requested members active already or writable; then a new snapshot by the actor at the time is active under the next version, or nothing changed and the active one is handed back |
| SnapshotOutcomes.InitializeLeavesActive | apps/api/internal/snapshot/postgres/repository.go:250-292 | The first initialisation succeeds exactly when there are latest published documents, all ready, and their snapshot can be written; exactly these documents are then active under version one |
| SnapshotOutcomes.InitializeKeepsActive | apps/api/internal/snapshot/postgres/repository.go:262-273 | A later initialisation hands back the active snapshot with its release and changes nothing |
| SnapshotOutcomes.StageLeavesStored | apps/api/internal/snapshot/postgres/repository.go:151-188 | A staging succeeds exactly when the command is valid, the document ready, and a snapshot of the requested manifest stored or writable; it hands that one back, created exactly when none was stored, with the release as it stands |
| SnapshotManifest.ManifestSHA256 | apps/api/internal/snapshot/postgres/repository.go:553-565 | Sorting a copy and appending lines computes the manifest |
| SnapshotManifest.ManifestIgnoresOrder | apps/api/internal/snapshot/postgres/repository.go:553-565 | Permuting the members does not change the manifest |
| SnapshotManifest.ByTextIsBySource | apps/api/internal/snapshot/postgres/repository.go:553-557 | Sorting by the text of the source id is sorting by the id |
| SnapshotManifest.ReplaceMember | apps/api/internal/snapshot/postgres/repository.go:567-576 | The slot overwritten in place, or appended |
| SnapshotManifest.ReplaceMembers | apps/api/internal/snapshot/postgres/repository.go:567-576 | Replacing keeps every other source and brings in the candidate |
| SnapshotRelease.InsertMemberRows | apps/api/internal/snapshot/postgres/repository.go:334-345 | Row inserts succeed exactly when no key repeats |
| SnapshotRelease.SelectReadyMembers | apps/api/internal/snapshot/postgres/repository.go:479-510 | The latest ready document of each source, or the refusal of the first unfit one |
| SnapshotRelease.Repository.FindSnapshot | apps/api/internal/snapshot/postgres/repository.go:428-434 | The snapshot of the corpus with the manifest, if any |
| SnapshotRelease.Repository.MovePointer | apps/api/internal/snapshot/postgres/repository.go:346-366 | Inserts or overwrites the one release row with the next version |
| SnapshotRelease.Repository.Write | apps/api/internal/snapshot/postgres/repository.go:309-367 | Computes the write step: reuse, stale, or a new snapshot made active |
| SnapshotRelease.Repository.WriteStaged | apps/api/internal/snapshot/postgres/repository.go:369-407 | Computes the staging step: reuse or a new inactive snapshot |
| SnapshotRelease.Repository.Publish | apps/api/internal/snapshot/postgres/repository.go:107-148 | Computes the Publish step and keeps the store valid |
| SnapshotRelease.Repository.Stage | apps/api/internal/snapshot/postgres/repository.go:151-188 | Computes the Stage step |
| SnapshotRelease.Repository.Activate | apps/api/internal/snapshot/postgres/repository.go:191-247 | Computes the Activate step; on success the requested snapshot is active and the release handed back is the stored one |
| SnapshotRelease.Repository.Initialize | apps/api/internal/snapshot/postgres/repository.go:250-292 | Computes the Initialize step |
| JsonTokens.TreePrefix | apps/api/internal/evaluation/application/assets.go:687-729 | At most one value can be read off the front of a token stream, with one remainder |
| JsonTokens.CheckSound | apps/api/internal/evaluation/application/assets.go:687-729 | What the checker accepts is one duplicate-free value followed by the remainder it leaves |
| JsonTokens.CheckComplete | apps/api/internal/evaluation/application/assets.go:687-729 | Every duplicate-free value is accepted and exactly it is consumed, whatever follows |
| JsonTokens.CheckIsExact | apps/api/internal/evaluation/application/assets.go:679-740 | The check with the end test accepts exactly the tokens of one value without a repeated key at any depth |
| JsonTokens.Decoder.Token | apps/api/internal/evaluation/application/assets.go:687-695 | The decoder step: skips an expected separator and reads the next token, or fails on a misplaced one |
| JsonTokens.MoreMeansElement | apps/api/internal/evaluation/application/assets.go:718-725 | Before the rest of an open array, the test for more is true exactly when an element is left, before the first one or after a separator |
| JsonTokens.MoreMeansField | apps/api/internal/evaluation/application/assets.go:697-717 | Before the rest of an open object, the test for more is true exactly when a field is left |
| JsonTokens.Decoder.ConsumeValue | apps/api/internal/evaluation/application/assets.go:687-729 | The recursive reader terminates, succeeds exactly when a duplicate-free value follows, and then stands right after it |
| JsonTokens.ValidateNoDuplicateFields | apps/api/internal/evaluation/application/assets.go:679-740 | Accepts exactly one duplicate-free value with nothing after it |
| CanonicalJson.WriteCanonicalJson | apps/api/internal/evaluation/application/assets.go:634-677 | The recursive writer appends the canonical form, whatever order the map hands out its keys |
| CanonicalJson.WriteObject | apps/api/internal/evaluation/application/assets.go:637-659 | Keys collected, sorted and written with their values |
| CanonicalJson.WriteArray | apps/api/internal/evaluation/application/assets.go:660-671 | Elements in order, separated by commas |
| CanonicalJson.KeysOf | apps/api/internal/evaluation/application/assets.go:638-642 | Any iteration order sorts to the same key list |
| CanonicalJson.RoundTrip | apps/api/internal/evaluation/application/assets.go:634-677 | Reading the printed tree gives the value back |
| CanonicalJson.DecodeCanonical | apps/api/internal/evaluation/application/assets.go:620-632 | Decoding the canonical tokens gives the value back |
| CanonicalJson.CanonicalHasNoDuplicates | apps/api/internal/evaluation/application/assets.go:620-632 | Canonical output passes the duplicate check |
| CanonicalJson.CanonicalIsInjective | apps/api/internal/evaluation/application/assets.go:634-677 | Equal canonical tokens mean equal values |
| CanonicalJson.CanonicalizeIsIdempotent | apps/api/internal/evaluation/application/assets.go:620-632 | Canonicalising twice equals once |
| CanonicalJson.CanonicalFormDecidesEquality | apps/api/internal/evaluation/application/assets.go:620-632 | Two documents have one canonical form exactly when they decode to the same value |
| CanonicalJson.CanonicalTextIsInjective | apps/api/internal/evaluation/application/assets.go:634-677 | Equal canonical texts mean equal values, character for character, for any self-delimiting string encoding |
| JsonQuoting.QuoteIsSelfDelimiting | apps/api/internal/evaluation/application/assets.go:648-652 | The string encoding of json.Marshal can be read off the front of a text in one way only |
| JsonQuoting.CanonicalTextDecidesEquality | apps/api/internal/evaluation/application/assets.go:634-677 | Under that encoding two values have one canonical text exactly when they are equal |
| JsonReader.QuotedStringReads | apps/api/internal/evaluation/application/assets.go:648-652 | A reader of strings by section 7 of RFC 8259 reads an encoded string back, and leaves what follows it |
| JsonReader.SpelledTokensRead | apps/api/internal/evaluation/application/assets.go:634-677 | A reader of tokens by section 2 of RFC 8259 reads the printed characters back as the printed tokens |
| JsonReader.CanonicalTextReadsBack | apps/api/internal/evaluation/application/assets.go:620-677 | Reading the canonical text of a value, character by character, gives the value back |
| Text.LessIsLexicographic | apps/api/internal/evaluation/application/assets.go:641 | Keys are sorted as texts: a proper beginning first, else the smaller character at the first difference |
| Pairing.ValidateCase | apps/api/internal/evaluation/domain/evaluation.go:197-235 | Accepts exactly the valid cases and writes the default outcome in place |
| Pairing.DefaultsDecideOutcomes | apps/api/internal/evaluation/domain/evaluation.go:197-235 | A valid case expects an answer without a reason code or an abstention with one; an outcome that was given stands, an omitted one means an answer |
| Pairing.IndexCases | apps/api/internal/evaluation/domain/evaluation.go:292-306 | The first pass: every case valid, external ids and positions distinct |
| Pairing.CheckReciprocals | apps/api/internal/evaluation/domain/evaluation.go:307-312 | The second pass: every case has a partner in the other language that points back |
| Pairing.ValidatePairedCases | apps/api/internal/evaluation/domain/evaluation.go:284-315 | Accepts exactly paired cases, leaving each with its default outcome |
| Pairing.PartnersFormInvolution | apps/api/internal/evaluation/domain/evaluation.go:307-312 | Taking the partner is a fixed-point-free involution that changes the language |
| Pairing.HalfInEachLanguage | apps/api/internal/evaluation/domain/evaluation.go:284-315 | The number of accepted cases is even, half in each language |
| Pairing.ValidatePairedOutcomes | apps/api/internal/evaluation/application/assets.go:540-552 | Accepts exactly when every case agrees in outcome and reason with the case looked up |
| Pairing.LookedUpCaseIsPartner | apps/api/internal/evaluation/application/assets.go:540-552 | On accepted cases the case looked up is the partner |
| Pairing.OutcomesAgreeExactly | apps/api/internal/evaluation/application/assets.go:540-552 | On paired cases the outcome check passes exactly when reciprocal cases expect the same outcome for the same reason |
| Pairing.FindCaseByExternalID | apps/api/internal/evaluation/domain/evaluation.go:639-646 | The first case with the external id, or the zero case |
| Pairing.IndexSelections | apps/api/internal/evaluation/domain/evaluation.go:339-346 | The first pass: every selection valid, cases and rank-language slots distinct |
| Pairing.CheckSelections | apps/api/internal/evaluation/domain/evaluation.go:334-397 | Accepts exactly selections that are valid, distinct and answered by the reciprocal case at the same rank |
| Pairing.ValidateStarterSelections | apps/api/internal/evaluation/domain/evaluation.go:330-348 | The pairing check first, then the selections |
| Pairing.StartersSelectPairs | apps/api/internal/evaluation/domain/evaluation.go:334-397 | Each accepted starter selects a case of the revision as it is, and another starter selects its partner at the same rank |
| Pairing.AcceptedRanksComeInPairs | apps/api/internal/evaluation/domain/evaluation.go:387-397 | Every rank in use is used exactly twice, once per language |
| Pairing.ValidateStarterRanks | apps/api/internal/evaluation/application/assets.go:554-572 | Accepts exactly when every rank up to the largest is counted twice |
| Pairing.RankCheckMeansNoGap | apps/api/internal/evaluation/application/assets.go:554-572 | On accepted starters the rank check passes exactly when no rank up to the largest is missing |
| Pairing.AcceptedRanksAreContiguous | apps/api/internal/evaluation/application/assets.go:554-572 | Then the ranks are precisely 1..m with 2*m selections and m at most five |
| EventStream.StreamQuestion | apps/web/src/api/chat.ts:195-211 | For every way of cutting the text into chunks, the events are those of splitting the whole text at blank lines |
| EventStream.RecordsGrow | apps/web/src/api/chat.ts:200-202 | More text leaves closed records alone and goes on from the open one |
| EventStream.DeliverBatch | apps/web/src/api/chat.ts:203-206 | A batch of records delivers its events in order, up to the first the parser refuses |
| EventStream.DeliveryStopsAtRefusal | apps/web/src/api/chat.ts:195-211 | The delivered events are the parsed payloads, in order, up to the first one the parser refuses, and the delivery fails exactly at a refusal |
| EventStream.PayloadIsTrimmedDataLine | apps/web/src/api/chat.ts:220-228 | The payload of a record is its first data line after the mark, without the white space around it; a record without a data line, or with nothing on it, has none |
| EventStream.PayloadComesBack | apps/web/src/api/chat.ts:220-228 | The payload of a written record is read back |
| EventStream.WrittenEventsAreDelivered | apps/api/internal/chat/http/handler.go:303-315 | Whatever the server writes reaches the parser payload by payload, in order |
| EvidenceMerge.Deduplicated | apps/agent/src/norvii_agent/retrieval/hybrid.py:229-249 | The dictionary loop computes the merged and renumbered list |
| EvidenceMerge.MergeKeepsEveryLocationOnce | apps/agent/src/norvii_agent/retrieval/hybrid.py:229-249 | One item per location in first-occurrence order, ranks 1..n, nothing else changed but the contribution, no location lost |
| EvidenceMerge.BothExactlyOnRepetition | apps/agent/src/norvii_agent/retrieval/hybrid.py:241-245 | A location is credited to both exactly when it occurs at least twice; otherwise its contribution stays |
| EvidenceMerge.VectorLocationsLead | apps/agent/src/norvii_agent/retrieval/hybrid.py:234-249 | The vector locations come first in their own order |
| EvidenceMerge.HybridRetriever.GraphEvidence | apps/agent/src/norvii_agent/retrieval/hybrid.py:100-193 | Only a completed lookup contributes evidence and sets path and scope; two stages are appended |
| EvidenceMerge.HybridRetriever.Search | apps/agent/src/norvii_agent/retrieval/hybrid.py:63-83 | A search that returns has recorded exactly the stages vector, planning, graph, with the number of items each side found, completion exactly where it came so far, and a reason exactly where it stopped; a wrong strategy changes nothing |
| EvidenceMerge.StagesFollowOutcome | apps/agent/src/norvii_agent/retrieval/hybrid.py:107-193 | On every outcome of the graph side the three stages report its evidence and where it stopped |
| EvidenceMerge.AnswerCreditsItsSides | apps/agent/src/norvii_agent/retrieval/hybrid.py:85-193 | Every item of an answer was found by the vector search or the graph and is that item but for rank and credit; it is credited to the side that found it, and to both exactly when its location was found more than once |
| EvidenceMerge.WithoutGraphVectorStands | apps/agent/src/norvii_agent/retrieval/hybrid.py:107-181 | When the graph contributes nothing the distinct vector results stand, renumbered |
| GraphPlan.BoundedStrings | apps/agent/src/norvii_agent/providers/planning.py:215-229 | The loop with early stop gives the first terms of the whole cleaned list |
| GraphPlan.TermsAreClean | apps/agent/src/norvii_agent/providers/planning.py:215-229 | Terms are distinct, non-empty, bounded and taken from the input |
| GraphPlan.FiltersConnect | apps/agent/src/norvii_agent/providers/planning.py:176-191 | Every kept predicate meets a kept label and every kept label a kept predicate; nothing new, nothing repeated |
| GraphPlan.FiltersDropOnlyUnconnected | apps/agent/src/norvii_agent/providers/planning.py:176-191 | Only labels and predicates that connect to nothing are dropped |
| GraphPlan.FiltersAreIdempotent | apps/agent/src/norvii_agent/providers/planning.py:176-191 | Filtering again changes nothing |
| GraphPlan.MakePlan | apps/agent/src/norvii_agent/providers/planning.py:137-173 | The plan, or a refusal of a malformed decision |
| GraphPlan.PlansAreSound | apps/agent/src/norvii_agent/providers/planning.py:137-173 | A graph plan has between one and eight distinct predicates and labels of at most 80 characters, connected both ways and published, and a published scope of at most 160 characters; any other plan is empty with a safe reason |
| GraphPlan.GraphIsUsedExactlyWhenConnected | apps/agent/src/norvii_agent/providers/planning.py:137-173 | The graph is used exactly when the model asks for it and a listed predicate meets a listed label |
| GraphPlan.PlansReportTheDecision | apps/agent/src/norvii_agent/providers/planning.py:137-212 | A plan with the graph keeps, in the listed order, exactly the listed predicates and labels that some published capability connects, and the given scope exactly when it is a published one of bounded length; without the graph it says outside the scope exactly when the model did |
| GraphPlan.ListedAreFirst | apps/agent/src/norvii_agent/providers/planning.py:215-229 | The listed terms are the usable normalised texts, first come first, up to the limit |

## Left out

Weaker than the repository, on purpose:

- LedgerStore.Repository.Complete: each transaction is one atomic step. `finalizeRunIfTerminal` counts open cases without locking the run row, so two completions that overlap inside the database are not modelled; finalisation is claimed per call.
- LedgerStore.Repository.Claim: the query language of a claim, the `started_at` and `finished_at` times and the lease-lost branch of its own update (the row is locked by the same transaction) are left out; which rows others hold locked is a parameter.
- LedgerStore.Repository.CreateRun: invalid input, a missing parent row and a violated constraint are one status, `Rejected`; that the run's own corpus is written to its rows stands for the composite foreign keys.
- WorkerAnswers.BatchesEndAsAnswered: what processing a claim gives and the calls of other workers before each answer are inputs.
- Scoring.ParseCitationMarkers: an answer is a sequence of characters; UTF-8 decoding is not modelled.
- Scoring.ScoreCaseV1: metric values are exact quotients, where the code rounds to 64-bit floats; the same holds for aggregates and comparison deltas.
- RunCreation.CreateEvaluationRun: the preflight plan, the dataset's cases and the two checksums are inputs, and new identifiers come from a supply given by the caller.
- RunCreation.ComparableRunsPairCompletely: the hash is a parameter that must tell the two runs' preimages apart.
- SnapshotManifest.ManifestSHA256: the hash is a parameter, and so is the time format; what is used of the format is that instants print differently and without bars or line breaks.
- SnapshotRelease.PublishChangesOneSource: the hash must tell the requested text from the active one.
- SnapshotRelease.Repository.Publish: which documents are published and ready is a parameter of each call; foreign keys from snapshot members to documents and revisions are left out.
- JsonTokens.ValidateNoDuplicateFields: starts from tokens. Lexing of bytes, number syntax and UTF-8 are not modelled.
- JsonQuoting.CanonicalTextDecidesEquality: strings are sequences of characters, so the replacement of invalid UTF-8 is not modelled; numbers are words of number characters.
- JsonReader.CanonicalTextReadsBack: the reader takes words of number characters as numbers and does not read pairs of surrogate escapes, which the printer never writes.
- Pairing.ValidatePairedCases: the revision's own validation is one flag, and the different validation errors are one refusal.
- EventStream.StreamQuestion: chunks are already decoded text, and the field checks of `parseChatEvent` are a parser parameter; a parse failure ends the delivery.
- GraphPlan.BoundedStrings: Python's `strip` and `lower` are a parameter.
- EvidenceMerge.HybridRetriever.Search: stage durations, token counts and the embedding model are left out; what the vector search and the graph answer is an input, and an error other than an unavailable strategy counts as a failed search.

Not modelled:

- SQL text, connection handling, isolation levels, context cancellation and every network transport.
- Reads without an invariant of their own: `Aggregate`, `GetEvaluationRun`, snapshot listings, HTTP handlers.
- `LatestPublication`, publication review and preflight gates, corpus and source lifecycles: one-branch guards that would add easy members only.
- The browser's record decoders and the user interface; the model, embedding and graph providers; `StrategyRetriever`.
- Hash internals and generation of UUIDs.
