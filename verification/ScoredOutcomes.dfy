/** From an agent's report to the stored row: what a scored case holds, in terms of the report alone. */
module ScoredOutcomes {
  import opened Text
  import opened Evaluation
  import opened Ledger
  import opened LedgerOutcomes
  import LedgerFinal
  import Scoring

  /** The metric rows of a scored case, in terms of what the agent reported and what was expected of it. */
  ghost predicate ScoreStored(
    rows: map<MetricName, MetricRow>, result: Scoring.AgentCaseResult, expectedOutcome: ExpectedOutcome, expected: seq<EvidenceProvenance>)
    requires rows.Keys == TerminalMetricNames
  {
    && rows[Latency].numerator == result.latency
    && rows[InputTokens].numerator == result.inputTokens && rows[OutputTokens].numerator == result.outputTokens
    && rows[ExecutionState].value == Some(1.0) && rows[SemanticSupport].state == NeedsHumanReview
    && (rows[ExpectedAbstention].value == Some(1.0) <==> expectedOutcome == ExpectAbstain && result.state.ExecAbstained?)
    && (rows[ExpectedAbstention].value == Some(0.0) <==> expectedOutcome == ExpectAbstain && result.state.ExecCompleted?)
    && (rows[RetrievalCoverage].state == NotApplicable <==> expected == [])
    && (expected != [] ==>
          && rows[RetrievalCoverage].numerator == Some(|Scoring.ItemSet(expected) * Scoring.ItemSet(result.retrieved)|)
          && rows[RetrievalCoverage].denominator == Some(|Scoring.ItemSet(expected)|))
  }

  /** The row and the evidence of a scored case. */
  ghost predicate AnswerStored(row: CaseRow, evidence: seq<ActualEvidence>, result: Scoring.AgentCaseResult) {
    && (row.state.Completed? <==> result.state.ExecCompleted?) && (row.state.Abstained? <==> result.state.ExecAbstained?)
    && (row.state.Failed? <==> result.state.ExecFailed?) && (row.state.Cancelled? <==> result.state.ExecCancelled?)
    && row.result.answer == Some(result.answer) && row.result.latency == result.latency
    && row.result.inputTokens == result.inputTokens && row.result.outputTokens == result.outputTokens
    && |evidence| >= |result.retrieved|
    && forall n | 0 <= n < |result.retrieved| ::
         evidence[n].kind == Retrieved && evidence[n].position == n + 1 && evidence[n].provenance == result.retrieved[n]
  }

  lemma RowsFollowMetrics(
    rows: map<MetricName, MetricRow>, metrics: seq<Metric>, policy: string, result: Scoring.AgentCaseResult,
    actual: Scoring.MaterializedCase, expectedOutcome: ExpectedOutcome, expected: seq<EvidenceProvenance>)
    requires rows.Keys == TerminalMetricNames && Scoring.TenInOrder(metrics)
    requires Scoring.EvidenceReport(metrics[0], metrics[1], metrics[2], metrics[3], expected, actual)
    requires Scoring.OutcomeReport(metrics[4], metrics[5], metrics[6], metrics[7], metrics[8], metrics[9], expectedOutcome, actual)
    requires Reports(actual, result) && (result.state.ExecCompleted? || result.state.ExecAbstained?)
    requires forall n | 0 <= n < 10 :: HoldsMetric(rows[metrics[n].name], metrics[n], policy)
    ensures ScoreStored(rows, result, expectedOutcome, expected)
  {
    MeasurementStored(rows[Latency], metrics[6], policy, result.latency);
    MeasurementStored(rows[InputTokens], metrics[7], policy, result.inputTokens);
    MeasurementStored(rows[OutputTokens], metrics[8], policy, result.outputTokens);
    assert HoldsMetric(rows[RetrievalCoverage], metrics[0], policy);
    assert HoldsMetric(rows[ExpectedAbstention], metrics[4], policy);
    assert HoldsMetric(rows[ExecutionState], metrics[5], policy);
    assert HoldsMetric(rows[SemanticSupport], metrics[9], policy);
  }

  lemma MeasurementStored(row: MetricRow, m: Metric, policy: string, value: Option<int>)
    requires HoldsMetric(row, m, policy) && Scoring.ReportsMeasurement(m, m.name, value)
    ensures row.numerator == value
  {
  }

  /** The materialized case repeats what the agent reported. */
  ghost predicate Reports(actual: Scoring.MaterializedCase, result: Scoring.AgentCaseResult) {
    && actual.state == result.state && actual.answer == result.answer && actual.latency == result.latency
    && actual.inputTokens == result.inputTokens && actual.outputTokens == result.outputTokens
    && Scoring.Locations(actual.retrieved) == result.retrieved
  }

  lemma ScoreRows(
    rows: map<MetricName, MetricRow>, policy: string, result: Scoring.AgentCaseResult,
    actual: Scoring.MaterializedCase, expectedOutcome: ExpectedOutcome, expected: seq<EvidenceProvenance>, why: Scoring.Rationales)
    requires Scoring.ScoreableInput(expectedOutcome, expected, actual) && !Scoring.FailedExecution(actual.state)
    requires Scoring.NoneBlank(why) && Reports(actual, result) && rows.Keys == TerminalMetricNames
    requires forall m | m in Scoring.ScoreMetrics(expectedOutcome, expected, actual, why) ::
               m.name in rows && HoldsMetric(rows[m.name], m, policy)
    ensures ScoreStored(rows, result, expectedOutcome, expected)
  {
    var metrics := Scoring.ScoreMetrics(expectedOutcome, expected, actual, why);
    Scoring.EvidenceMetricsReport(expectedOutcome, expected, actual, why);
    Scoring.OutcomeMetricsReport(expectedOutcome, expected, actual, why);
    Scoring.CompletedScoreInOrder(expectedOutcome, expected, actual, why);
    forall n | 0 <= n < 10 ensures HoldsMetric(rows[metrics[n].name], metrics[n], policy) {
      assert metrics[n] in metrics;
    }
    RowsFollowMetrics(rows, metrics, policy, result, actual, expectedOutcome, expected);
  }

  lemma MaterializedReports(corpusID: Uuid, snapshotID: Uuid, result: Scoring.AgentCaseResult)
    ensures Reports(Scoring.MaterializedOf(corpusID, snapshotID, result), result)
  {
    assert Scoring.Locations(Scoring.RetrievedRecords(result.retrieved)) == result.retrieved;
  }

  lemma ScoredRowStored(
    before: CaseRow, row: CaseRow, actual: Scoring.MaterializedCase, metrics: seq<Metric>, grounding: string, failureCode: string,
    result: Scoring.AgentCaseResult)
    requires HoldsResult(before, row, LedgerFinal.ScoredResult(actual, metrics, grounding, failureCode))
    requires Reports(actual, result) && Scoring.ValidMaterialized(actual)
    ensures AnswerStored(row, actual.retrieved + actual.cited, result)
  {
    forall n | 0 <= n < |result.retrieved| ensures actual.retrieved[n].provenance == result.retrieved[n] {
      assert Scoring.Locations(actual.retrieved)[n] == result.retrieved[n];
    }
  }

  /** Case c holds the scored form of an agent result. */
  ghost predicate HoldsScored(
    after: Db, c: Uuid, result: Scoring.AgentCaseResult, expectedOutcome: ExpectedOutcome, expected: seq<EvidenceProvenance>)
  {
    && c in after.cases && c in after.evidence && c in after.metrics
    && AnswerStored(after.cases[c], after.evidence[c], result)
    && after.metrics[c].Keys == TerminalMetricNames
    && (if Scoring.FailedExecution(result.state)
        then forall name | name in after.metrics[c] :: after.metrics[c][name].state == NotScored
        else ScoreStored(after.metrics[c], result, expectedOutcome, expected))
  }

  lemma HeldFormIsScored(
    db: Db, after: Db, c: Uuid, actual: Scoring.MaterializedCase, result: Scoring.AgentCaseResult, policy: string,
    expectedOutcome: ExpectedOutcome, expected: seq<EvidenceProvenance>, why: Scoring.Rationales, grounding: string, failureCode: string)
    requires Scoring.ScoreableInput(expectedOutcome, expected, actual) && Scoring.NoneBlank(why) && Reports(actual, result)
    requires HoldsAnswer(
               db, after, c, LedgerFinal.ScoredResult(
                 actual, Scoring.ScoreMetrics(expectedOutcome, expected, actual, why), grounding, failureCode), policy)
    ensures HoldsScored(after, c, result, expectedOutcome, expected)
  {
    ScoredRowStored(db.cases[c], after.cases[c], actual, Scoring.ScoreMetrics(expectedOutcome, expected, actual, why),
                    grounding, failureCode, result);
    if !Scoring.FailedExecution(result.state) {
      ScoreRows(after.metrics[c], policy, result, actual, expectedOutcome, expected, why);
    }
  }

  /** A scored result that is done is stored as the agent reported it, with the scores it earned. */
  lemma ScoredAnswersAreStored(
    catalog: Catalog, db: Db, claim: ClaimedCase, result: Scoring.AgentCaseResult, expectedOutcome: ExpectedOutcome,
    expected: seq<EvidenceProvenance>, why: Scoring.Rationales, grounding: string, failureCode: string, scored: TerminalCaseResult)
    requires Scoring.AcceptableResult(claim.corpusID, claim.snapshotID, result) && Scoring.NoneBlank(why)
    requires expectedOutcome == ExpectAnswer || expectedOutcome == ExpectAbstain
    requires forall n | 0 <= n < |expected| :: ValidProvenance(claim.corpusID, claim.snapshotID, expected[n])
    requires scored == LedgerFinal.ScoredForm(
               claim.corpusID, claim.snapshotID, result, expectedOutcome, expected, why, grounding, failureCode)
    requires Complete(catalog, db, claim, scored).1 == Done
    ensures HoldsScored(Complete(catalog, db, claim, scored).0, claim.id, result, expectedOutcome, expected)
  {
    var actual := Scoring.MaterializedOf(claim.corpusID, claim.snapshotID, result);
    CompletionStoresResult(catalog, db, claim, scored);
    Scoring.AcceptedResultsAreScoreable(claim.corpusID, claim.snapshotID, result, expectedOutcome, expected);
    MaterializedReports(claim.corpusID, claim.snapshotID, result);
    HeldFormIsScored(db, Complete(catalog, db, claim, scored).0, claim.id, actual, result,
                     db.runs[claim.runID].key.scoringPolicyVersion, expectedOutcome, expected, why, grounding, failureCode);
  }
}
