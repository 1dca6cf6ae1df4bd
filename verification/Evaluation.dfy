/** The values that scoring, the run ledger, the worker and comparison exchange. */
module Evaluation {
  import opened Text

  datatype Option<+T> = None | Some(value: T)

  /** The largest value of a 64-bit integer column. */
  const MAX_INT64: int := 0x7FFF_FFFF_FFFF_FFFF

  /** The largest value of an integer column. */
  const MAX_INT32: int := 0x7FFF_FFFF

  // ---------------------------------------------------------------- Metrics

  /** The ten required components, and any other name a caller may supply. */
  datatype MetricName =
    | RetrievalCoverage | CitationCoverage | CitationValidity | CitationScope | ExpectedAbstention
    | ExecutionState | Latency | InputTokens | OutputTokens | SemanticSupport
    | OtherMetric(text: string)

  const TerminalMetricNames: set<MetricName> :=
    {RetrievalCoverage, CitationCoverage, CitationValidity, CitationScope, ExpectedAbstention,
     ExecutionState, Latency, InputTokens, OutputTokens, SemanticSupport}

  datatype MetricState = Scored | NotApplicable | NotScored | NeedsHumanReview | OtherMetricState(text: string)

  datatype Metric = Metric(
    name: MetricName, state: MetricState, value: Option<real>,
    numerator: int, denominator: int, rationale: string)

  /** validateMetric: arithmetic is present exactly on scored metrics. */
  predicate ValidMetric(m: Metric) {
    && m.name != OtherMetric("")
    && !Blank(m.rationale)
    && (match m.state
        case Scored => m.value.Some? && m.denominator > 0 && m.numerator >= 0
        case NotApplicable | NotScored | NeedsHumanReview => m.value.None? && m.numerator == 0 && m.denominator == 0
        case OtherMetricState(_) => false)
  }

  /** The required set: ten metrics, no name missing (so none repeated and none foreign). */
  ghost predicate RequiredMetricSet(metrics: seq<Metric>) {
    && |metrics| == 10
    && (set m | m in metrics :: m.name) == TerminalMetricNames
  }

  // ---------------------------------------------------------------- Evidence

  datatype EvidenceProvenance = EvidenceProvenance(
    corpusID: Uuid, snapshotID: Uuid, sourceID: Uuid, sourceRevisionID: Uuid, documentID: Uuid, unitID: Uuid,
    canonicalLocator: string, startOffset: int, endOffset: int, contentSHA256: string)

  /** Provenance complete and inside one corpus snapshot. */
  predicate ValidProvenance(corpusID: Uuid, snapshotID: Uuid, p: EvidenceProvenance) {
    && p.corpusID == corpusID && p.snapshotID == snapshotID
    && p.sourceID != NIL && p.sourceRevisionID != NIL && p.documentID != NIL && p.unitID != NIL
    && CanonicalLocator(p.canonicalLocator)
    && 0 <= p.startOffset < p.endOffset
    && IsSha256(p.contentSHA256)
  }

  datatype EvidenceKind = Retrieved | Cited | OtherKind(text: string)

  datatype ActualEvidence = ActualEvidence(
    kind: EvidenceKind, position: int, markerPosition: int, provenance: EvidenceProvenance)

  // ---------------------------------------------------------------- Cases

  datatype ExpectedOutcome = ExpectAnswer | ExpectAbstain | OtherOutcome(text: string)

  /** The durable case states, and any other text a result may carry. */
  datatype CaseState = Pending | Leased | Completed | Abstained | Failed | Cancelled | OtherCaseState(text: string)

  predicate TerminalCase(s: CaseState) {
    s.Completed? || s.Abstained? || s.Failed? || s.Cancelled?
  }

  predicate TerminalFailure(s: CaseState) {
    s.Failed? || s.Cancelled?
  }

  /** A lease handed to a worker: the case, its frozen execution identity and the fencing token. */
  datatype ClaimedCase = ClaimedCase(
    id: Uuid, runID: Uuid, corpusID: Uuid, snapshotID: Uuid, datasetCaseID: Uuid,
    question: string, strategy: string, fingerprint: string,
    agentBuild: string, chatModel: string, embeddingModel: string,
    attemptCount: int, leaseToken: nat, leaseExpiresAt: nat)

  datatype TerminalCaseResult = TerminalCaseResult(
    state: CaseState, answer: string, graphGroundingState: string, safeFailureCode: string,
    latency: Option<int>, inputTokens: Option<int>, outputTokens: Option<int>,
    actualEvidence: seq<ActualEvidence>, metrics: seq<Metric>, scoringPolicyVersion: string)

  predicate ValidMeasurement(m: Option<int>) {
    m.Some? ==> m.value >= 0
  }

  /** A failure code is present exactly on failed and cancelled results; a completed one has an answer. */
  predicate ConsistentContent(result: TerminalCaseResult) {
    && TerminalCase(result.state)
    && (result.state.Completed? ==> !Blank(result.answer))
    && (TerminalFailure(result.state) <==> !Blank(result.safeFailureCode))
    && ValidMeasurement(result.latency) && ValidMeasurement(result.inputTokens) && ValidMeasurement(result.outputTokens)
    && (result.metrics != [] ==> !Blank(result.scoringPolicyVersion))
  }
}
