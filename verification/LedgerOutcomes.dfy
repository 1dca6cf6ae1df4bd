/** What each successful repository call leaves in the tables, column by column. */
module LedgerOutcomes {
  import opened Text
  import opened Evaluation
  import opened Sums
  import opened Ledger
  import opened LedgerInvariant
  import opened LedgerHistory
  import LedgerFinal

  // ---------------------------------------------------------------- Frames

  /** A text column that is null exactly for the empty text. */
  predicate HoldsText(column: Option<string>, text: string) {
    (column.None? <==> text == "") && (column.Some? ==> column.value == text)
  }

  /** What no answer changes about a case row. */
  predicate SameCase(before: CaseRow, row: CaseRow) {
    && row.runID == before.runID && row.corpusID == before.corpusID && row.datasetCaseID == before.datasetCaseID
    && row.position == before.position && row.expectedOutcome == before.expectedOutcome
    && row.createdAt == before.createdAt && row.attempts == before.attempts
  }

  /** Every case but c keeps its row and children, every run but r its row and aggregates. */
  ghost predicate OthersUntouched(db: Db, after: Db, c: Uuid, r: Uuid) {
    && after.cases.Keys == db.cases.Keys && after.runs.Keys == db.runs.Keys
    && after.expected == db.expected && after.nextToken == db.nextToken
    && (forall d | d in db.cases && d != c :: after.cases[d] == db.cases[d] && ChildrenSame(db, after, d))
    && forall s | s in db.runs && s != r ::
         && after.runs[s] == db.runs[s] && (s in after.aggregates <==> s in db.aggregates)
         && (s in db.aggregates ==> after.aggregates[s] == db.aggregates[s])
  }

  lemma FinalizeRunFrame(db: Db, r: Uuid)
    requires Finalize(db, r).Some?
    ensures var after := Finalize(db, r).value;
            && after.runs.Keys == db.runs.Keys
            && forall s | s in db.runs && s != r ::
                 && after.runs[s] == db.runs[s] && (s in after.aggregates <==> s in db.aggregates)
                 && (s in db.aggregates ==> after.aggregates[s] == db.aggregates[s])
  {
  }

  /** Finalisation adds nothing but the state and the aggregates of its run. */
  lemma FinalizeTouchesOneRun(db: Db, mid: Db, c: Uuid, r: Uuid)
    requires OthersUntouched(db, mid, c, r) && Finalize(mid, r).Some?
    ensures var after := Finalize(mid, r).value;
            && OthersUntouched(db, after, c, r)
            && after.cases == mid.cases && after.metrics == mid.metrics && after.evidence == mid.evidence
  {
    FinalizeKeepsRows(mid, r);
    FinalizeRunFrame(mid, r);
    StillUntouched(db, mid, Finalize(mid, r).value, c, r);
  }

  lemma StillUntouched(db: Db, mid: Db, after: Db, c: Uuid, r: Uuid)
    requires OthersUntouched(db, mid, c, r)
    requires after.cases == mid.cases && after.metrics == mid.metrics && after.evidence == mid.evidence
    requires after.expected == mid.expected && after.nextToken == mid.nextToken && after.runs.Keys == mid.runs.Keys
    requires forall s | s in mid.runs && s != r ::
               && after.runs[s] == mid.runs[s] && (s in after.aggregates <==> s in mid.aggregates)
               && (s in mid.aggregates ==> after.aggregates[s] == mid.aggregates[s])
    ensures OthersUntouched(db, after, c, r)
  {
  }

  // ---------------------------------------------------------------- Complete

  /** The row of a completed case holds its result, column by column. */
  predicate HoldsResult(before: CaseRow, row: CaseRow, result: TerminalCaseResult) {
    && SameCase(before, row) && row.lease.None?
    && row.state == result.state && row.result.answer == Some(result.answer)
    && HoldsText(row.result.grounding, result.graphGroundingState)
    && HoldsText(row.result.failureCode, result.safeFailureCode)
    && row.result.latency == result.latency
    && row.result.inputTokens == result.inputTokens && row.result.outputTokens == result.outputTokens
  }

  /** A metric row holds a metric; arithmetic is stored for scored ones only. */
  predicate HoldsMetric(row: MetricRow, m: Metric, policy: string) {
    && row.state == m.state && row.rationale == m.rationale && row.scorerVersion == policy
    && (if m.state == Scored
        then row.value == m.value && row.numerator == Some(m.numerator) && row.denominator == Some(m.denominator)
        else row.value.None? && row.numerator.None? && row.denominator.None?)
  }

  /** A metric row that withholds a score. */
  predicate Withheld(row: MetricRow, policy: string) {
    row == MetricRow(NotScored, None, None, None, FAILURE_RATIONALE, policy)
  }

  /** Ten rows: the metrics of the result, all of them withheld for a failure. */
  ghost predicate HoldsMetrics(rows: map<MetricName, MetricRow>, result: TerminalCaseResult, policy: string) {
    && rows.Keys == TerminalMetricNames
    && (TerminalFailure(result.state) ==> forall name | name in rows :: Withheld(rows[name], policy))
    && (!TerminalFailure(result.state) ==> forall m | m in result.metrics :: m.name in rows && HoldsMetric(rows[m.name], m, policy))
  }

  /** Case c holds the result: its row, its evidence and its metric rows. */
  ghost predicate HoldsAnswer(db: Db, after: Db, c: Uuid, result: TerminalCaseResult, policy: string) {
    && c in db.cases && c in after.cases && HoldsResult(db.cases[c], after.cases[c], result)
    && c in after.evidence && after.evidence[c] == result.actualEvidence
    && c in after.metrics && HoldsMetrics(after.metrics[c], result, policy)
  }

  ghost predicate DifferentNames(metrics: seq<Metric>) {
    forall i, j | 0 <= i < j < |metrics| :: metrics[i].name != metrics[j].name
  }

  lemma {:induction false} MetricTableLookup(metrics: seq<Metric>, policy: string, i: nat)
    requires DifferentNames(metrics) && i < |metrics|
    ensures metrics[i].name in MetricTable(metrics, policy)
    ensures MetricTable(metrics, policy)[metrics[i].name] == MetricRowOf(metrics[i], policy)
  {
    if i < |metrics| - 1 {
      MetricTableLookup(metrics[..|metrics| - 1], policy, i);
    }
  }

  ghost function NamesIn(metrics: seq<Metric>): set<MetricName> {
    set m | m in metrics :: m.name
  }

  lemma NamesInOneMore(metrics: seq<Metric>, n: nat)
    requires n < |metrics|
    ensures NamesIn(metrics[..n + 1]) == NamesIn(metrics[..n]) + {metrics[n].name}
  {
    assert metrics[..n + 1] == metrics[..n] + [metrics[n]];
  }

  lemma {:induction false} NamesWithin(metrics: seq<Metric>)
    ensures |NamesIn(metrics)| <= |metrics|
  {
    if metrics != [] {
      NamesWithin(metrics[..|metrics| - 1]);
      NamesInOneMore(metrics, |metrics| - 1);
      assert metrics[..|metrics|] == metrics;
    }
  }

  /** Ten metrics with a repeated name cannot cover the ten components. */
  lemma RepeatedNameMissesOne(metrics: seq<Metric>, at: nat)
    requires |metrics| == 10 && at < 10 && metrics[at].name in NamesIn(metrics[..at])
    ensures NamesIn(metrics) != TerminalMetricNames
  {
    var rest := metrics[..at] + metrics[at + 1..];
    forall name | name in NamesIn(metrics) ensures name in NamesIn(rest) {
      var m :| m in metrics && m.name == name;
      if m == metrics[at] {
        var n :| n in metrics[..at] && n.name == name;
        assert n in rest;
      } else {
        assert m in rest;
      }
    }
    NamesWithin(rest);
    SubsetSize(NamesIn(metrics), NamesIn(rest));
    TenComponents();
  }

  lemma TenComponents()
    ensures |TerminalMetricNames| == 10
  {
  }

  lemma RequiredNamesDiffer(metrics: seq<Metric>)
    requires RequiredMetricSet(metrics)
    ensures DifferentNames(metrics)
  {
    forall i, j | 0 <= i < j < |metrics| ensures metrics[i].name != metrics[j].name {
      if metrics[i].name == metrics[j].name {
        assert metrics[..j][i] == metrics[i];
        RepeatedNameMissesOne(metrics, j);
      }
    }
  }

  lemma TerminalTableHoldsMetrics(result: TerminalCaseResult, policy: string)
    requires ValidTerminalResult(result) && StorableMetrics(result, policy)
    ensures HoldsMetrics(TerminalTable(result, policy), result, policy)
  {
    TerminalTableIsComplete(result, policy);
    if !TerminalFailure(result.state) {
      RequiredNamesDiffer(result.metrics);
      forall m | m in result.metrics
        ensures m.name in TerminalTable(result, policy) && HoldsMetric(TerminalTable(result, policy)[m.name], m, policy)
      {
        var i :| 0 <= i < |result.metrics| && result.metrics[i] == m;
        MetricTableLookup(result.metrics, policy, i);
      }
    }
  }

  lemma CompletionDone(catalog: Catalog, db: Db, claim: ClaimedCase, result: TerminalCaseResult)
    requires Complete(catalog, db, claim, result).1 == Done
    ensures ValidTerminalResult(result) && HoldsLease(db, claim) && StorableResult(catalog, db, claim, result)
    ensures var finalized := Finalize(WithTerminalCase(db, claim, result), claim.runID);
            finalized.Some? && Complete(catalog, db, claim, result).0 == finalized.value
  {
  }

  lemma TerminalCaseHolds(db: Db, claim: ClaimedCase, result: TerminalCaseResult)
    requires HoldsLease(db, claim) && claim.runID in db.runs && ValidTerminalResult(result)
    requires StorableMetrics(result, db.runs[claim.runID].key.scoringPolicyVersion)
    ensures var mid := WithTerminalCase(db, claim, result);
            && OthersUntouched(db, mid, claim.id, claim.runID)
            && HoldsAnswer(db, mid, claim.id, result, db.runs[claim.runID].key.scoringPolicyVersion)
  {
    TerminalTableHoldsMetrics(result, db.runs[claim.runID].key.scoringPolicyVersion);
  }

  /**
   A completion that is done stores its result: state, answer, texts and measurements in the row, the
   evidence, and the ten metrics; nothing else changes except the state and aggregates of the run.
   One that is not done changes nothing.
   */
  lemma CompletionStoresResult(catalog: Catalog, db: Db, claim: ClaimedCase, result: TerminalCaseResult)
    ensures var (after, status) := Complete(catalog, db, claim, result);
            && (status != Done ==> after == db)
            && (status == Done ==>
                  && claim.runID in db.runs && OthersUntouched(db, after, claim.id, claim.runID)
                  && HoldsAnswer(db, after, claim.id, result, db.runs[claim.runID].key.scoringPolicyVersion))
  {
    if Complete(catalog, db, claim, result).1 == Done {
      CompletionDone(catalog, db, claim, result);
      TerminalCaseHolds(db, claim, result);
      FinalizeTouchesOneRun(db, WithTerminalCase(db, claim, result), claim.id, claim.runID);
    }
  }

  /** What a completion stored stays stored through every later history. */
  lemma StoredResultStays(catalog: Catalog, db: Db, claim: ClaimedCase, result: TerminalCaseResult, later: seq<Event>)
    requires Complete(catalog, db, claim, result).1 == Done
    ensures claim.runID in db.runs
    ensures var after := Exec(catalog, Complete(catalog, db, claim, result).0, later);
            HoldsAnswer(db, after, claim.id, result, db.runs[claim.runID].key.scoringPolicyVersion)
  {
    CompletionStoresResult(catalog, db, claim, result);
    TerminalCaseIsImmutable(catalog, Complete(catalog, db, claim, result).0, later, claim.id);
  }

  // ---------------------------------------------------------------- ReleaseForRetry

  /** Back in the queue: no lease and no failure code, every other column as it was. */
  predicate Requeued(before: CaseRow, row: CaseRow) {
    && SameCase(before, row) && row.state.Pending? && row.lease.None? && row.result.failureCode.None?
    && row.result.answer == before.result.answer && row.result.grounding == before.result.grounding
    && row.result.latency == before.result.latency
    && row.result.inputTokens == before.result.inputTokens && row.result.outputTokens == before.result.outputTokens
  }

  /** Given up: failed under the code, every other column as it was. */
  predicate GivenUp(before: CaseRow, row: CaseRow, failureCode: string) {
    && SameCase(before, row) && row.state.Failed? && row.lease.None? && row.result.failureCode == Some(failureCode)
    && row.result.answer == before.result.answer && row.result.grounding == before.result.grounding
    && row.result.latency == before.result.latency
    && row.result.inputTokens == before.result.inputTokens && row.result.outputTokens == before.result.outputTokens
  }

  /** Below the limit the case is queued again without children, at the limit it failed with ten withheld metrics. */
  ghost predicate ReleaseStores(db: Db, after: Db, claim: ClaimedCase, failureCode: string, maxAttempts: int) {
    && claim.id in db.cases && claim.id in after.cases && db.cases[claim.id].runID in db.runs
    && var row := db.cases[claim.id];
    && OthersUntouched(db, after, claim.id, row.runID)
    && (row.attempts < maxAttempts ==> Requeued(row, after.cases[claim.id]) && ChildrenSame(db, after, claim.id))
    && (row.attempts >= maxAttempts ==>
          && GivenUp(row, after.cases[claim.id], failureCode)
          && claim.id in after.metrics && after.metrics[claim.id].Keys == TerminalMetricNames
          && forall name | name in after.metrics[claim.id] ::
               Withheld(after.metrics[claim.id][name], db.runs[row.runID].key.scoringPolicyVersion))
  }

  lemma ExhaustedCaseStored(catalog: Catalog, db: Db, claim: ClaimedCase, failureCode: string, maxAttempts: int)
    requires ReleaseForRetry(db, claim, failureCode, maxAttempts).1 == Done && claim.id in db.cases && CaseOk(catalog, db, claim.id)
    requires db.cases[claim.id].attempts >= maxAttempts
    ensures ReleaseStores(db, ReleaseForRetry(db, claim, failureCode, maxAttempts).0, claim, failureCode, maxAttempts)
  {
    var mid := WithExhaustedCase(db, claim, failureCode);
    assert OthersUntouched(db, mid, claim.id, claim.runID);
    FinalizeTouchesOneRun(db, mid, claim.id, claim.runID);
  }

  lemma ReturnedCaseStored(db: Db, claim: ClaimedCase, failureCode: string, maxAttempts: int)
    requires ReleaseForRetry(db, claim, failureCode, maxAttempts).1 == Done
    requires claim.id in db.cases && db.cases[claim.id].runID in db.runs && db.cases[claim.id].attempts < maxAttempts
    ensures ReleaseStores(db, ReleaseForRetry(db, claim, failureCode, maxAttempts).0, claim, failureCode, maxAttempts)
  {
    var r := db.cases[claim.id].runID;
    var mid := db.(cases := db.cases[claim.id := ReleasedRow(db.cases[claim.id])]);
    assert OthersUntouched(db, mid, claim.id, r);
    FinalizeTouchesOneRun(db, mid, claim.id, r);
  }

  lemma ReleaseStoresOutcome(catalog: Catalog, db: Db, claim: ClaimedCase, failureCode: string, maxAttempts: int)
    requires Inv(catalog, db)
    ensures var (after, status) := ReleaseForRetry(db, claim, failureCode, maxAttempts);
            && (status != Done ==> after == db)
            && (status == Done ==> ReleaseStores(db, after, claim, failureCode, maxAttempts))
  {
    if ReleaseForRetry(db, claim, failureCode, maxAttempts).1 == Done {
      assert CaseOk(catalog, db, claim.id);
      if db.cases[claim.id].attempts >= maxAttempts {
        ExhaustedCaseStored(catalog, db, claim, failureCode, maxAttempts);
      } else {
        ReturnedCaseStored(db, claim, failureCode, maxAttempts);
      }
    }
  }

  // ---------------------------------------------------------------- Claim

  /** Row c comes before row d: created earlier, or at the same time under a smaller identifier. */
  predicate Older(db: Db, c: Uuid, d: Uuid) {
    && c in db.cases && d in db.cases && db.cases[c].createdAt <= db.cases[d].createdAt
    && (db.cases[c].createdAt == db.cases[d].createdAt ==> c < d)
  }

  /** The rows a claim takes: as many candidates as allowed, oldest first, and no older one left out. */
  ghost predicate OldestFirst(db: Db, ids: seq<Uuid>, candidates: set<Uuid>, batch: nat) {
    && |ids| == (if |candidates| < batch then |candidates| else batch)
    && (forall c | c in ids :: c in candidates)
    && (forall i, j | 0 <= i < j < |ids| :: Older(db, ids[i], ids[j]))
    && (forall i, c | 0 <= i < |ids| && c in candidates && c !in ids :: Older(db, ids[i], c))
  }

  lemma {:induction false} SelectionIsOldestFirst(db: Db, candidates: set<Uuid>, limit: nat)
    requires candidates <= db.cases.Keys
    ensures OldestFirst(db, Selection(db, candidates, limit), candidates, limit)
    decreases limit
  {
    SelectionIsCandidates(db, candidates, limit);
    if limit > 0 && candidates != {} {
      var first := First(db, candidates);
      FirstWitness(db, candidates);
      var rest := Selection(db, candidates - {first}, limit - 1);
      SelectionIsOldestFirst(db, candidates - {first}, limit - 1);
      FirstLeads(db, candidates, limit, first, rest);
    }
  }

  lemma FirstLeads(db: Db, candidates: set<Uuid>, limit: nat, first: Uuid, rest: seq<Uuid>)
    requires candidates <= db.cases.Keys && limit > 0 && first in candidates
    requires forall d | d in candidates && d != first :: Before(db, first, d)
    requires OldestFirst(db, rest, candidates - {first}, limit - 1)
    ensures OldestFirst(db, [first] + rest, candidates, limit)
  {
    var ids := [first] + rest;
    forall d | d in candidates && d != first ensures Older(db, first, d) {
      assert Before(db, first, d);
    }
    forall i, j | 0 <= i < j < |ids| ensures Older(db, ids[i], ids[j]) {
      assert ids[j] == rest[j - 1] && ids[j] in candidates - {first};
      if i > 0 {
        assert ids[i] == rest[i - 1];
      }
    }
    forall i, c | 0 <= i < |ids| && c in candidates && c !in ids ensures Older(db, ids[i], c) {
      assert c !in rest && c != first;
      if i > 0 {
        assert ids[i] == rest[i - 1];
      }
    }
  }

  /** A case a claim may take: unlocked, never claimed or its lease run out, in a run that is not finished. */
  ghost predicate Takeable(catalog: Catalog, db: Db, c: Uuid, now: nat, locked: set<Uuid>)
    requires c in db.cases
  {
    var row := db.cases[c];
    && c !in locked && row.datasetCaseID in catalog.datasetCases && row.runID in db.runs
    && (db.runs[row.runID].state.Queued? || db.runs[row.runID].state.Running?)
    && (row.state.Pending? || (row.state.Leased? && row.lease.Some? && row.lease.value.expiresAt <= now))
  }

  ghost function TakeableCases(catalog: Catalog, db: Db, now: nat, locked: set<Uuid>): set<Uuid> {
    set c | c in db.cases && Takeable(catalog, db, c, now, locked)
  }

  /** The record of a claim, read off the tables. */
  predicate NamesCase(catalog: Catalog, db: Db, claim: ClaimedCase) {
    && claim.id in db.cases
    && var row := db.cases[claim.id];
    && row.runID in db.runs && row.datasetCaseID in catalog.datasetCases && row.lease.Some?
    && var run := db.runs[row.runID];
    && claim.runID == row.runID && claim.corpusID == row.corpusID && claim.datasetCaseID == row.datasetCaseID
    && claim.snapshotID == run.key.snapshotID && claim.question == catalog.datasetCases[row.datasetCaseID].question
    && claim.strategy == run.experiment.strategy && claim.fingerprint == run.experiment.fingerprint
    && claim.agentBuild == run.experiment.agentBuild && claim.chatModel == run.experiment.chatModel
    && claim.embeddingModel == run.experiment.embeddingModel
    && claim.attemptCount == row.attempts
    && claim.leaseToken == row.lease.value.token && claim.leaseExpiresAt == row.lease.value.expiresAt
  }

  /** Some of the oldest takeable cases, as many as the batch allows, are leased to the worker until the expiry. */
  ghost predicate TakesOldest(
    catalog: Catalog, db: Db, workerID: string, now: nat, expiresAt: nat, batch: nat, locked: set<Uuid>, after: Db)
  {
    exists ids :: OldestFirst(db, ids, TakeableCases(catalog, db, now, locked), batch) && Claimed(db, ids, workerID, expiresAt, after)
  }

  lemma SelectedAreOldest(catalog: Catalog, db: Db, now: nat, batch: nat, locked: set<Uuid>)
    ensures OldestFirst(db, Selected(catalog, db, now, batch, locked), TakeableCases(catalog, db, now, locked), batch)
  {
    var candidates := Candidates(catalog, db, locked, now);
    SelectionIsOldestFirst(db, candidates, batch);
    forall c ensures c in candidates <==> c in TakeableCases(catalog, db, now, locked) {
    }
    assert candidates == TakeableCases(catalog, db, now, locked);
  }

  lemma ClaimLeases(
    catalog: Catalog, db: Db, workerID: string, now: nat, period: int, expiresAt: int, batch: int, locked: set<Uuid>)
    requires Claim(catalog, db, workerID, now, period, batch, locked).1 == Done && expiresAt == now + period
    ensures batch >= 1 && expiresAt >= 0
    ensures Claim(catalog, db, workerID, now, period, batch, locked).0
         == ClaimAll(db, Selected(catalog, db, now, batch, locked), workerID, expiresAt)
  {
  }

  lemma SelectedTaken(catalog: Catalog, db: Db, workerID: string, now: nat, expiresAt: nat, batch: nat, locked: set<Uuid>)
    requires DistinctLeasable(db, Selected(catalog, db, now, batch, locked))
    ensures TakesOldest(catalog, db, workerID, now, expiresAt, batch, locked,
                        ClaimAll(db, Selected(catalog, db, now, batch, locked), workerID, expiresAt))
  {
    var ids := Selected(catalog, db, now, batch, locked);
    SelectedAreOldest(catalog, db, now, batch, locked);
    ClaimAllRows(db, ids, workerID, expiresAt);
    assert Claimed(db, ids, workerID, expiresAt, ClaimAll(db, ids, workerID, expiresAt));
  }

  /** A claim that is done leases the oldest takeable cases, as many as the batch allows; otherwise it changes nothing. */
  lemma ClaimTakesOldest(
    catalog: Catalog, db: Db, workerID: string, now: nat, period: int, expiresAt: int, batch: int, locked: set<Uuid>)
    requires expiresAt == now + period
    ensures var (after, status) := Claim(catalog, db, workerID, now, period, batch, locked);
            && (status != Done ==> after == db)
            && (status == Done ==>
                  batch >= 1 && expiresAt >= 0 && TakesOldest(catalog, db, workerID, now, expiresAt, batch, locked, after))
  {
    if Claim(catalog, db, workerID, now, period, batch, locked).1 == Done {
      SelectedAreLeasable(catalog, db, now, batch, locked);
      ClaimLeases(catalog, db, workerID, now, period, expiresAt, batch, locked);
      SelectedTaken(catalog, db, workerID, now, expiresAt, batch, locked);
    }
  }

  // ---------------------------------------------------------------- CreateRun

  /** The row of a requested case: its dataset case, position and expected outcome, waiting and untouched. */
  predicate NewRow(row: CaseRow, identity: RunIdentity, c: RunCase, now: nat) {
    && row.runID == identity.id && row.corpusID == identity.key.corpusID
    && row.datasetCaseID == c.datasetCaseID && row.position == c.position && row.expectedOutcome == c.expectedOutcome
    && row.createdAt == now && row.state.Pending? && row.attempts == 0 && row.lease.None?
    && row.result.answer.None? && row.result.grounding.None? && row.result.failureCode.None?
    && row.result.latency.None? && row.result.inputTokens.None? && row.result.outputTokens.None?
  }

  /** The run is queued under its identity, its cases wait, its evidence is listed, and no old row changes. */
  ghost predicate RunStored(db: Db, after: Db, request: CreateRunRequest, now: nat) {
    var identity := request.identity;
    && identity.id in after.runs && after.runs[identity.id].state.Queued?
    && after.runs[identity.id].key == identity.key && after.runs[identity.id].experiment == identity.experiment
    && after.runs[identity.id].initiatedBy == identity.initiatedBy
    && (forall c | c in request.cases :: c.id in after.cases && NewRow(after.cases[c.id], identity, c, now))
    && (forall e | e in request.evidence :: e.id in after.expected && after.expected[e.id] == e)
    && after.cases.Keys == db.cases.Keys + (set c | c in request.cases :: c.id)
    && after.expected.Keys == db.expected.Keys + (set e | e in request.evidence :: e.id)
    && after.runs.Keys == db.runs.Keys + {identity.id}
    && (forall c | c in db.cases :: after.cases[c] == db.cases[c])
    && (forall e | e in db.expected :: after.expected[e] == db.expected[e])
    && (forall r | r in db.runs :: after.runs[r] == db.runs[r])
    && after.evidence == db.evidence && after.metrics == db.metrics && after.aggregates == db.aggregates
    && after.nextToken == db.nextToken
  }

  lemma OneMoreExpected(
    rows: map<Uuid, ExpectedEvidence>, earlier: seq<ExpectedEvidence>, last: ExpectedEvidence, before: map<Uuid, ExpectedEvidence>)
    requires forall e | e in earlier :: e.id != last.id && e.id in before && before[e.id] == e
    requires before.Keys == rows.Keys + (set e | e in earlier :: e.id)
    requires last.id !in rows && forall e | e in rows :: before[e] == rows[e]
    ensures var after, evidence := before[last.id := last], earlier + [last];
            && (forall e | e in evidence :: e.id in after && after[e.id] == e)
            && after.Keys == rows.Keys + (set e | e in evidence :: e.id)
            && forall e | e in rows :: after[e] == rows[e]
  {
    var after, evidence := before[last.id := last], earlier + [last];
    assert (set e | e in evidence :: e.id) == (set e | e in earlier :: e.id) + {last.id};
  }

  lemma {:induction false} WithExpectedRows(rows: map<Uuid, ExpectedEvidence>, evidence: seq<ExpectedEvidence>)
    requires forall i, j | 0 <= i < j < |evidence| :: evidence[i].id != evidence[j].id
    requires forall i | 0 <= i < |evidence| :: evidence[i].id !in rows
    ensures var after := WithExpected(rows, evidence);
            && (forall e | e in evidence :: e.id in after && after[e.id] == e)
            && after.Keys == rows.Keys + (set e | e in evidence :: e.id)
            && forall e | e in rows :: after[e] == rows[e]
  {
    if evidence != [] {
      var earlier, last := evidence[..|evidence| - 1], evidence[|evidence| - 1];
      WithExpectedRows(rows, earlier);
      assert evidence == earlier + [last];
      forall e | e in earlier ensures e.id != last.id {
        var i :| 0 <= i < |earlier| && earlier[i] == e;
        assert evidence[i].id != evidence[|evidence| - 1].id;
      }
      OneMoreExpected(rows, earlier, last, WithExpected(rows, earlier));
    }
  }

  lemma NewRowsStored(db: Db, request: CreateRunRequest, now: nat)
    requires forall i, j | 0 <= i < j < |request.cases| :: request.cases[i].id != request.cases[j].id
    requires forall i | 0 <= i < |request.cases| :: request.cases[i].id !in db.cases
    ensures var after := WithCases(db.cases, request.identity, request.cases, now);
            && (forall c | c in request.cases :: c.id in after && NewRow(after[c.id], request.identity, c, now))
            && after.Keys == db.cases.Keys + (set c | c in request.cases :: c.id)
            && forall c | c in db.cases :: after[c] == db.cases[c]
  {
    WithCasesRows(db.cases, request.identity, request.cases, now);
    var after := WithCases(db.cases, request.identity, request.cases, now);
    forall c | c in request.cases ensures c.id in after && NewRow(after[c.id], request.identity, c, now) {
      var i :| 0 <= i < |request.cases| && request.cases[i] == c;
    }
    forall c | c in after.Keys ensures c in db.cases.Keys + (set c | c in request.cases :: c.id) {
      if c !in db.cases {
        var i :| 0 <= i < |request.cases| && request.cases[i].id == c;
        assert request.cases[i] in request.cases;
      }
    }
  }

  /** A run that is created is stored with all its cases and expected evidence; otherwise nothing is. */
  lemma CreateRunStoresRequest(catalog: Catalog, db: Db, request: CreateRunRequest, now: nat)
    ensures var (after, status) := CreateRun(catalog, db, request, now);
            && (status != Done ==> after == db)
            && (status == Done ==> RunStored(db, after, request, now))
  {
    if CreateRun(catalog, db, request, now).1 == Done {
      NewRowsStored(db, request, now);
      WithExpectedRows(db.expected, request.evidence);
    }
  }

  // ---------------------------------------------------------------- Finalisation

  /** The cases of a run whose metric of this name is in a state. */
  ghost function CasesWith(db: Db, r: Uuid, name: MetricName, state: MetricState): set<Uuid> {
    set c | c in CasesOf(db, r) && c in db.metrics && name in db.metrics[c] && db.metrics[c][name].state == state
  }

  function ValueOr0(column: Option<int>): int {
    if column.Some? then column.value else 0
  }

  /** The scored numerators and denominators of a run, by case. */
  ghost function ScoredNumerators(db: Db, r: Uuid, name: MetricName): map<Uuid, int> {
    map c | c in CasesWith(db, r, name, Scored) :: ValueOr0(db.metrics[c][name].numerator)
  }

  ghost function ScoredDenominators(db: Db, r: Uuid, name: MetricName): map<Uuid, int> {
    map c | c in CasesWith(db, r, name, Scored) :: ValueOr0(db.metrics[c][name].denominator)
  }

  /** The counts of a component are the numbers of cases in each state, its sums range over the scored ones. */
  ghost predicate CountsCases(db: Db, r: Uuid, name: MetricName, counts: Counts) {
    && counts.scored == |CasesWith(db, r, name, Scored)| && counts.notScored == |CasesWith(db, r, name, NotScored)|
    && counts.needsReview == |CasesWith(db, r, name, NeedsHumanReview)|
    && counts.notApplicable == |CasesWith(db, r, name, NotApplicable)|
    && counts.numerator == Sum(ScoredNumerators(db, r, name)) && counts.denominator == Sum(ScoredDenominators(db, r, name))
  }

  /** The state of an aggregate: scored before not scored, not scored before needing review, else not applicable. */
  ghost predicate StateFollowsCases(db: Db, r: Uuid, name: MetricName, state: MetricState) {
    var scored, withheld, review :=
      CasesWith(db, r, name, Scored), CasesWith(db, r, name, NotScored), CasesWith(db, r, name, NeedsHumanReview);
    && (state == Scored <==> scored != {})
    && (state == NotScored <==> scored == {} && withheld != {})
    && (state == NeedsHumanReview <==> scored == {} && withheld == {} && review != {})
    && (state == NotApplicable <==> CasesWith(db, r, name, NotApplicable) == CasesOf(db, r))
  }

  lemma BitsCount(rows: map<Uuid, map<MetricName, MetricRow>>, g: Group, state: MetricState, found: set<Uuid>)
    requires found <= rows.Keys && forall c | c in rows :: Bit(rows[c], g, state) == if c in found then 1 else 0
    ensures Sum(Bits(rows, g, state)) == |found|
  {
    var ones := map c | c in found :: 1;
    SumOfOnes(ones);
    assert ones.Keys == found && |ones| == |ones.Keys|;
    SumRestrict(Bits(rows, g, state), ones);
  }

  lemma BitsCountCases(db: Db, r: Uuid, policy: string, g: Group, state: MetricState)
    requires LedgerFinal.FullRows(RunMetrics(db, r), policy) && RunMetrics(db, r).Keys == CasesOf(db, r)
    requires g in LedgerFinal.TenGroups(policy)
    ensures Sum(Bits(RunMetrics(db, r), g, state)) == |CasesWith(db, r, g.name, state)|
  {
    var rows, found := RunMetrics(db, r), CasesWith(db, r, g.name, state);
    forall c | c in rows ensures Bit(rows[c], g, state) == if c in found then 1 else 0 {
      RunMetricAt(db, r, policy, g, c);
    }
    BitsCount(rows, g, state, found);
  }

  lemma RunMetricAt(db: Db, r: Uuid, policy: string, g: Group, c: Uuid)
    requires LedgerFinal.FullRows(RunMetrics(db, r), policy) && c in RunMetrics(db, r) && g in LedgerFinal.TenGroups(policy)
    ensures c in CasesOf(db, r) && c in db.metrics && RunMetrics(db, r)[c] == db.metrics[c]
    ensures g.name in db.metrics[c] && RowOk(db.metrics[c][g.name], policy) && InGroup(db.metrics[c], g)
  {
    assert g.name in RunMetrics(db, r)[c];
  }

  lemma SumsCoverScored(db: Db, r: Uuid, policy: string, g: Group)
    requires LedgerFinal.FullRows(RunMetrics(db, r), policy) && RunMetrics(db, r).Keys == CasesOf(db, r)
    requires g in LedgerFinal.TenGroups(policy)
    ensures Sum(Numerators(RunMetrics(db, r), g)) == Sum(ScoredNumerators(db, r, g.name))
    ensures Sum(Denominators(RunMetrics(db, r), g)) == Sum(ScoredDenominators(db, r, g.name))
  {
    var rows := RunMetrics(db, r);
    forall c | c in rows
      ensures g.name in rows[c] && RowOk(rows[c][g.name], policy) && InGroup(rows[c], g)
      ensures c in CasesWith(db, r, g.name, Scored) <==> rows[c][g.name].state == Scored
    {
      RunMetricAt(db, r, policy, g, c);
    }
    SumRestrict(Numerators(rows, g), ScoredNumerators(db, r, g.name));
    SumRestrict(Denominators(rows, g), ScoredDenominators(db, r, g.name));
  }

  /** Every case of a complete group is in exactly one state. */
  lemma StatesCover(db: Db, r: Uuid, policy: string, g: Group)
    requires LedgerFinal.FullRows(RunMetrics(db, r), policy) && RunMetrics(db, r).Keys == CasesOf(db, r)
    requires g in LedgerFinal.TenGroups(policy)
    ensures CasesOf(db, r) == CasesWith(db, r, g.name, Scored) + CasesWith(db, r, g.name, NotScored)
                            + CasesWith(db, r, g.name, NeedsHumanReview) + CasesWith(db, r, g.name, NotApplicable)
  {
    var rows := RunMetrics(db, r);
    forall c | c in CasesOf(db, r)
      ensures c in CasesWith(db, r, g.name, Scored) + CasesWith(db, r, g.name, NotScored)
                 + CasesWith(db, r, g.name, NeedsHumanReview) + CasesWith(db, r, g.name, NotApplicable)
    {
      assert c in rows.Keys;
      RunMetricAt(db, r, policy, g, c);
    }
  }

  lemma AggregateFollowsCounts(db: Db, r: Uuid, name: MetricName, counts: Counts)
    requires CountsCases(db, r, name, counts) && CasesOf(db, r) != {}
    requires CasesOf(db, r) == CasesWith(db, r, name, Scored) + CasesWith(db, r, name, NotScored)
                             + CasesWith(db, r, name, NeedsHumanReview) + CasesWith(db, r, name, NotApplicable)
    ensures StateFollowsCases(db, r, name, AggregateOf(counts).state) && AggregateOf(counts).counts == counts
  {
    var scored, withheld, review, without :=
      CasesWith(db, r, name, Scored), CasesWith(db, r, name, NotScored), CasesWith(db, r, name, NeedsHumanReview),
      CasesWith(db, r, name, NotApplicable);
    assert forall c | c in scored + withheld + review :: c !in without;
  }

  /**
   The aggregates of a finished run count its cases: how many are in each state, the sums over the
   scored ones, and the state that follows.
   */
  lemma AggregatesCountCases(catalog: Catalog, db: Db, r: Uuid, g: Group)
    requires Inv(catalog, db) && r in db.runs && TerminalRun(db.runs[r].state)
    requires g in LedgerFinal.TenGroups(db.runs[r].key.scoringPolicyVersion)
    ensures r in db.aggregates && g in db.aggregates[r]
    ensures CountsCases(db, r, g.name, db.aggregates[r][g].counts)
    ensures StateFollowsCases(db, r, g.name, db.aggregates[r][g].state)
  {
    var rows, policy := RunMetrics(db, r), db.runs[r].key.scoringPolicyVersion;
    assert RunOk(db, r);
    LedgerFinal.FinishedRunRows(catalog, db, r);
    LedgerFinal.GroupsAreTheTenComponents(rows, policy);
    BitsCountCases(db, r, policy, g, Scored);
    BitsCountCases(db, r, policy, g, NotScored);
    BitsCountCases(db, r, policy, g, NeedsHumanReview);
    BitsCountCases(db, r, policy, g, NotApplicable);
    SumsCoverScored(db, r, policy, g);
    StatesCover(db, r, policy, g);
    AggregateFollowsCounts(db, r, g.name, CountsOf(rows, g));
  }

  lemma FailuresAreWithheld(catalog: Catalog, db: Db, c: Uuid, name: MetricName)
    requires Inv(catalog, db) && c in db.cases && TerminalFailure(db.cases[c].state) && name in TerminalMetricNames
    ensures c in db.metrics && name in db.metrics[c] && db.metrics[c][name].state == NotScored
  {
    assert CaseOk(catalog, db, c);
  }

  /** When every case of a finished run failed or was cancelled, all its ten aggregates are not scored. */
  lemma FailedRunsAreNotScored(catalog: Catalog, db: Db, r: Uuid, g: Group)
    requires Inv(catalog, db) && r in db.runs && db.runs[r].state.RunFailed?
    requires g in LedgerFinal.TenGroups(db.runs[r].key.scoringPolicyVersion)
    ensures r in db.aggregates && g in db.aggregates[r] && db.aggregates[r][g].state == NotScored
  {
    LedgerFinal.RunStateFollowsCases(catalog, db, r);
    AggregatesCountCases(catalog, db, r, g);
    forall c | c in CasesOf(db, r) ensures c in CasesWith(db, r, g.name, NotScored) {
      FailuresAreWithheld(catalog, db, c, g.name);
    }
    assert CasesOf(db, r) != {} by { assert RunOk(db, r); }
    var c :| c in CasesOf(db, r);
    assert c in CasesWith(db, r, g.name, NotScored);
    assert CasesWith(db, r, g.name, Scored) == {};
  }
}
