/**
 The evaluation run ledger as a state machine: the tables, and what each repository
 transaction does to them. A rejected transaction leaves every table as it was.
 */
module Ledger {
  import opened Text
  import opened Evaluation
  import opened Sums

  // ---------------------------------------------------------------- Tables

  datatype ComparisonKey = ComparisonKey(
    datasetRevisionID: Uuid, datasetContentSHA256: string, corpusID: Uuid, snapshotID: Uuid,
    snapshotManifestSHA256: string, orderedCaseSetSHA256: string, scoringPolicyVersion: string)

  datatype Experiment = Experiment(
    strategy: string, fingerprint: string, agentBuild: string, chatModel: string, embeddingModel: string)

  datatype RunIdentity = RunIdentity(id: Uuid, key: ComparisonKey, experiment: Experiment, initiatedBy: string)

  datatype RunState = Queued | Running | RunCompleted | RunCompletedWithFailures | RunFailed

  datatype RunRow = RunRow(key: ComparisonKey, experiment: Experiment, initiatedBy: string, state: RunState)

  datatype Lease = Lease(token: nat, workerID: string, expiresAt: nat)

  /** The nullable result columns of a case. */
  datatype StoredResult = StoredResult(
    answer: Option<string>, grounding: Option<string>, failureCode: Option<string>,
    latency: Option<int>, inputTokens: Option<int>, outputTokens: Option<int>)

  const NO_RESULT := StoredResult(None, None, None, None, None, None)

  datatype CaseRow = CaseRow(
    runID: Uuid, corpusID: Uuid, datasetCaseID: Uuid, position: int, expectedOutcome: ExpectedOutcome, createdAt: nat,
    state: CaseState, attempts: nat, lease: Option<Lease>, result: StoredResult)

  datatype ExpectedEvidence = ExpectedEvidence(
    id: Uuid, runCaseID: Uuid, sourceID: Uuid, sourceRevisionID: Uuid, documentID: Uuid, legalUnitID: Uuid,
    canonicalLocator: string, displayLocator: string, contentSHA256: string, ordinal: int)

  datatype MetricRow = MetricRow(
    state: MetricState, value: Option<real>, numerator: Option<int>, denominator: Option<int>,
    rationale: string, scorerVersion: string)

  datatype Group = Group(name: MetricName, scorerVersion: string)

  /** The columns of the aggregate query for one group. */
  datatype Counts = Counts(
    scored: int, numerator: int, denominator: int, notApplicable: int, notScored: int, needsReview: int)

  /** One run-level metric row; its rationale text prints the four case counts. */
  datatype AggregateRow = AggregateRow(
    state: MetricState, value: Option<real>, numerator: Option<int>, denominator: Option<int>, counts: Counts)

  /** The ledger tables. Metric and evidence rows are keyed by the case they belong to. */
  datatype Db = Db(
    runs: map<Uuid, RunRow>, cases: map<Uuid, CaseRow>, expected: map<Uuid, ExpectedEvidence>,
    evidence: map<Uuid, seq<ActualEvidence>>, metrics: map<Uuid, map<MetricName, MetricRow>>,
    aggregates: map<Uuid, map<Group, AggregateRow>>, nextToken: nat)

  const EMPTY := Db(map[], map[], map[], map[], map[], map[], 1)

  /** The immutable catalog the ledger refers to. */
  datatype DatasetCase = DatasetCase(corpusID: Uuid, revisionID: Uuid, expectedOutcome: ExpectedOutcome, question: string)

  datatype EvidenceUnit = EvidenceUnit(
    snapshotID: Uuid, corpusID: Uuid, sourceID: Uuid, sourceRevisionID: Uuid, documentID: Uuid, unitID: Uuid,
    canonicalLocator: string, contentSHA256: string)

  datatype Catalog = Catalog(
    datasetCases: map<Uuid, DatasetCase>, revisions: set<(Uuid, Uuid, string)>, snapshots: set<(Uuid, Uuid, string)>,
    units: set<EvidenceUnit>)

  datatype Status = Done | LeaseLost | Rejected

  predicate OpenCase(row: CaseRow) {
    row.state.Pending? || row.state.Leased?
  }

  predicate TerminalRun(state: RunState) {
    state.RunCompleted? || state.RunCompletedWithFailures? || state.RunFailed?
  }

  ghost function CasesOf(db: Db, run: Uuid): set<Uuid> {
    set c | c in db.cases && db.cases[c].runID == run
  }

  // ---------------------------------------------------------------- CreateRun

  datatype RunCase = RunCase(id: Uuid, datasetCaseID: Uuid, position: int, expectedOutcome: ExpectedOutcome)

  datatype CreateRunRequest = CreateRunRequest(identity: RunIdentity, cases: seq<RunCase>, evidence: seq<ExpectedEvidence>)

  predicate ValidRunIdentity(identity: RunIdentity) {
    var key, experiment := identity.key, identity.experiment;
    && identity.id != NIL && key.datasetRevisionID != NIL && key.corpusID != NIL && key.snapshotID != NIL
    && IsSha256(key.snapshotManifestSHA256) && IsSha256(key.datasetContentSHA256) && IsSha256(key.orderedCaseSetSHA256)
    && !Blank(experiment.strategy) && !Blank(experiment.fingerprint) && !Blank(key.scoringPolicyVersion)
    && !Blank(experiment.agentBuild) && !Blank(experiment.chatModel) && !Blank(experiment.embeddingModel)
    && !Blank(identity.initiatedBy)
  }

  predicate ValidRunCase(c: RunCase) {
    && c.id != NIL && c.datasetCaseID != NIL && c.position >= 1
    && (c.expectedOutcome == ExpectAnswer || c.expectedOutcome == ExpectAbstain)
  }

  /** Case fields valid, dataset cases and positions pairwise different. */
  ghost predicate ValidRunCases(cases: seq<RunCase>) {
    && (forall i | 0 <= i < |cases| :: ValidRunCase(cases[i]))
    && (forall i, j | 0 <= i < j < |cases| ::
          cases[i].datasetCaseID != cases[j].datasetCaseID && cases[i].position != cases[j].position)
  }

  predicate ValidExpectedEvidence(e: ExpectedEvidence) {
    && e.id != NIL && e.runCaseID != NIL && e.sourceID != NIL && e.sourceRevisionID != NIL
    && e.documentID != NIL && e.legalUnitID != NIL && e.ordinal >= 1
    && CanonicalLocator(e.canonicalLocator) && IsSha256(e.contentSHA256) && !Blank(e.displayLocator)
  }

  ghost predicate ValidRequest(request: CreateRunRequest) {
    && ValidRunIdentity(request.identity) && request.cases != []
    && ValidRunCases(request.cases)
    && (forall i | 0 <= i < |request.evidence| ::
          ValidExpectedEvidence(request.evidence[i]) && exists c :: c in request.cases && c.id == request.evidence[i].runCaseID)
  }

  predicate InDataset(catalog: Catalog, key: ComparisonKey, c: RunCase) {
    && c.datasetCaseID in catalog.datasetCases
    && var found := catalog.datasetCases[c.datasetCaseID];
       found.corpusID == key.corpusID && found.revisionID == key.datasetRevisionID && found.expectedOutcome == c.expectedOutcome
  }

  /** The case is the dataset's, and its position fits the column. */
  predicate CaseFits(catalog: Catalog, key: ComparisonKey, c: RunCase) {
    InDataset(catalog, key, c) && c.position <= MAX_INT32
  }

  function ExpectedUnit(key: ComparisonKey, e: ExpectedEvidence): EvidenceUnit {
    EvidenceUnit(key.snapshotID, key.corpusID, e.sourceID, e.sourceRevisionID, e.documentID, e.legalUnitID,
                 e.canonicalLocator, e.contentSHA256)
  }

  predicate ExpectedFits(catalog: Catalog, key: ComparisonKey, e: ExpectedEvidence) {
    ExpectedUnit(key, e) in catalog.units && e.ordinal <= MAX_INT32
  }

  /** Keys are fresh, every reference points at an existing row, and numbers fit their columns. */
  ghost predicate StorableRequest(catalog: Catalog, db: Db, request: CreateRunRequest) {
    var key := request.identity.key;
    && request.identity.id !in db.runs
    && (key.datasetRevisionID, key.corpusID, key.datasetContentSHA256) in catalog.revisions
    && (key.snapshotID, key.corpusID, key.snapshotManifestSHA256) in catalog.snapshots
    && (forall i | 0 <= i < |request.cases| :: request.cases[i].id !in db.cases && CaseFits(catalog, key, request.cases[i]))
    && (forall i, j | 0 <= i < j < |request.cases| :: request.cases[i].id != request.cases[j].id)
    && (forall i | 0 <= i < |request.evidence| ::
          request.evidence[i].id !in db.expected && ExpectedFits(catalog, key, request.evidence[i]))
    && (forall i, j | 0 <= i < j < |request.evidence| ::
          && request.evidence[i].id != request.evidence[j].id
          && (request.evidence[i].runCaseID, request.evidence[i].ordinal) != (request.evidence[j].runCaseID, request.evidence[j].ordinal))
  }

  function NewCaseRow(identity: RunIdentity, c: RunCase, now: nat): CaseRow {
    CaseRow(identity.id, identity.key.corpusID, c.datasetCaseID, c.position, c.expectedOutcome, now, Pending, 0, None, NO_RESULT)
  }

  function WithCases(rows: map<Uuid, CaseRow>, identity: RunIdentity, cases: seq<RunCase>, now: nat): map<Uuid, CaseRow> {
    if cases == [] then rows
    else
      var last := cases[|cases| - 1];
      WithCases(rows, identity, cases[..|cases| - 1], now)[last.id := NewCaseRow(identity, last, now)]
  }

  function WithExpected(rows: map<Uuid, ExpectedEvidence>, evidence: seq<ExpectedEvidence>): map<Uuid, ExpectedEvidence> {
    if evidence == [] then rows
    else
      var last := evidence[|evidence| - 1];
      WithExpected(rows, evidence[..|evidence| - 1])[last.id := last]
  }

  ghost function CreateRun(catalog: Catalog, db: Db, request: CreateRunRequest, now: nat): (Db, Status) {
    if !ValidRequest(request) || !StorableRequest(catalog, db, request) then (db, Rejected)
    else
      var identity := request.identity;
      (db.(runs := db.runs[identity.id := RunRow(identity.key, identity.experiment, identity.initiatedBy, Queued)],
           cases := WithCases(db.cases, identity, request.cases, now),
           expected := WithExpected(db.expected, request.evidence)),
       Done)
  }

  // ---------------------------------------------------------------- Claim

  /** Pending work, or work whose lease has run out, in a run that is not finished. */
  predicate Claimable(catalog: Catalog, db: Db, c: Uuid, now: nat) {
    && c in db.cases
    && var row := db.cases[c];
    && (row.state.Pending? || (row.state.Leased? && row.lease.Some? && row.lease.value.expiresAt <= now))
    && row.runID in db.runs && !TerminalRun(db.runs[row.runID].state)
    && row.datasetCaseID in catalog.datasetCases
  }

  /** The claim query's order: creation time, then identifier. */
  predicate Before(db: Db, c: Uuid, d: Uuid)
    requires c in db.cases && d in db.cases
  {
    db.cases[c].createdAt < db.cases[d].createdAt || (db.cases[c].createdAt == db.cases[d].createdAt && c < d)
  }

  lemma {:induction false} FirstExists(db: Db, candidates: set<Uuid>) returns (first: Uuid)
    requires candidates != {} && candidates <= db.cases.Keys
    ensures first in candidates && forall d | d in candidates && d != first :: Before(db, first, d)
    decreases |candidates|
  {
    var c :| c in candidates;
    if candidates == {c} {
      first := c;
    } else {
      var other := FirstExists(db, candidates - {c});
      first := if Before(db, c, other) then c else other;
      forall d | d in candidates && d != first ensures Before(db, first, d) {
        if d != c {
          assert d in candidates - {c};
        }
      }
    }
  }

  ghost function First(db: Db, candidates: set<Uuid>): Uuid
    requires candidates != {} && candidates <= db.cases.Keys
  {
    FirstWitness(db, candidates);
    var first :| first in candidates && forall d | d in candidates && d != first :: Before(db, first, d);
    first
  }

  lemma FirstWitness(db: Db, candidates: set<Uuid>)
    requires candidates != {} && candidates <= db.cases.Keys
    ensures exists first :: first in candidates && forall d | d in candidates && d != first :: Before(db, first, d)
  {
    var first := FirstExists(db, candidates);
  }

  /** The first rows of the candidates in query order, at most limit of them. */
  ghost function Selection(db: Db, candidates: set<Uuid>, limit: nat): seq<Uuid>
    requires candidates <= db.cases.Keys
    decreases limit
  {
    if limit == 0 || candidates == {} then []
    else
      var first := First(db, candidates);
      [first] + Selection(db, candidates - {first}, limit - 1)
  }

  /** Rows other transactions hold locked are skipped. */
  ghost function Candidates(catalog: Catalog, db: Db, locked: set<Uuid>, now: nat): set<Uuid> {
    set c | c in db.cases && Claimable(catalog, db, c, now) && c !in locked
  }

  /** One leased case: a fresh token, one more attempt, and its run started. */
  function ClaimOne(db: Db, c: Uuid, workerID: string, expiresAt: nat): Db
    requires c in db.cases && db.cases[c].runID in db.runs
  {
    var row := db.cases[c];
    var run := db.runs[row.runID];
    db.(runs := if run.state.Queued? then db.runs[row.runID := run.(state := Running)] else db.runs,
        cases := db.cases[c := row.(state := Leased, attempts := row.attempts + 1,
                                    lease := Some(Lease(db.nextToken, workerID, expiresAt)))],
        nextToken := db.nextToken + 1)
  }

  function ClaimAll(db: Db, ids: seq<Uuid>, workerID: string, expiresAt: nat): (after: Db)
    requires forall c | c in ids :: c in db.cases && db.cases[c].runID in db.runs
    ensures after.cases.Keys == db.cases.Keys && after.runs.Keys == db.runs.Keys
    ensures forall c | c in db.cases :: after.cases[c].runID == db.cases[c].runID
  {
    if ids == [] then db
    else ClaimOne(ClaimAll(db, ids[..|ids| - 1], workerID, expiresAt), ids[|ids| - 1], workerID, expiresAt)
  }

  lemma {:induction false} SelectionIsCandidates(db: Db, candidates: set<Uuid>, limit: nat)
    requires candidates <= db.cases.Keys
    ensures forall c | c in Selection(db, candidates, limit) :: c in candidates
    ensures forall i, j | 0 <= i < j < |Selection(db, candidates, limit)| ::
              Selection(db, candidates, limit)[i] != Selection(db, candidates, limit)[j]
    ensures |Selection(db, candidates, limit)| == if |candidates| < limit then |candidates| else limit
    decreases limit
  {
    if limit > 0 && candidates != {} {
      var first := First(db, candidates);
      SelectionIsCandidates(db, candidates - {first}, limit - 1);
    }
  }

  /** The rows one claim takes: the first unlocked claimable ones. */
  ghost function Selected(catalog: Catalog, db: Db, now: nat, batch: nat, locked: set<Uuid>): (ids: seq<Uuid>)
    ensures forall c | c in ids :: c in db.cases && db.cases[c].runID in db.runs
  {
    SelectionIsCandidates(db, Candidates(catalog, db, locked, now), batch);
    Selection(db, Candidates(catalog, db, locked, now), batch)
  }

  /** Every attempt counter can be raised once more. */
  ghost predicate Countable(db: Db, ids: seq<Uuid>) {
    forall c | c in ids :: c in db.cases && db.cases[c].attempts < MAX_INT32
  }

  ghost function Claim(catalog: Catalog, db: Db, workerID: string, now: nat, period: int, batch: int, locked: set<Uuid>): (Db, Status) {
    if Blank(workerID) || period <= 0 || batch < 1 || !Countable(db, Selected(catalog, db, now, batch, locked)) then (db, Rejected)
    else (ClaimAll(db, Selected(catalog, db, now, batch, locked), workerID, now + period), Done)
  }

  // ---------------------------------------------------------------- Validation of claims and results

  predicate ValidClaim(claim: ClaimedCase) {
    && claim.id != NIL && claim.runID != NIL && claim.corpusID != NIL && claim.snapshotID != NIL && claim.datasetCaseID != NIL
    && claim.leaseToken != 0 && claim.attemptCount >= 1 && claim.leaseExpiresAt != 0
    && !Blank(claim.question) && !Blank(claim.strategy) && !Blank(claim.fingerprint)
    && !Blank(claim.agentBuild) && !Blank(claim.chatModel) && !Blank(claim.embeddingModel)
  }

  predicate ValidTerminalResult(result: TerminalCaseResult) {
    && ConsistentContent(result)
    && forall m | m in result.metrics :: ValidMetric(m)
  }

  /** The row is leased under the claim's token; the expiry time is not looked at. */
  predicate HoldsLease(db: Db, claim: ClaimedCase) {
    && claim.id in db.cases
    && var row := db.cases[claim.id];
       row.state.Leased? && row.lease.Some? && row.lease.value.token == claim.leaseToken
  }

  /** The composite foreign keys of child rows written under a claim. */
  predicate ClaimNamesItsRun(db: Db, claim: ClaimedCase)
    requires claim.id in db.cases
  {
    && claim.runID == db.cases[claim.id].runID && claim.corpusID == db.cases[claim.id].corpusID
    && claim.runID in db.runs && db.runs[claim.runID].key.corpusID == claim.corpusID
  }

  // ---------------------------------------------------------------- Actual evidence

  predicate EvidenceFieldsValid(claim: ClaimedCase, item: ActualEvidence) {
    && (item.kind == Retrieved || item.kind == Cited)
    && (item.kind == Retrieved ==> item.markerPosition == 0)
    && (item.kind == Cited ==> item.markerPosition >= 1)
    && ValidProvenance(claim.corpusID, claim.snapshotID, item.provenance)
  }

  /** How many items of a kind a sequence holds. */
  function KindCount(evidence: seq<ActualEvidence>, kind: EvidenceKind): nat {
    if evidence == [] then 0
    else KindCount(evidence[..|evidence| - 1], kind) + if evidence[|evidence| - 1].kind == kind then 1 else 0
  }

  /** Each kind is numbered 1, 2, 3, ... in sequence order. */
  ghost predicate NumberedPerKind(evidence: seq<ActualEvidence>) {
    forall n | 0 <= n < |evidence| :: evidence[n].position == KindCount(evidence[..n], evidence[n].kind) + 1
  }

  /** The snapshot-membership lookup. */
  predicate InSnapshot(catalog: Catalog, p: EvidenceProvenance) {
    EvidenceUnit(p.snapshotID, p.corpusID, p.sourceID, p.sourceRevisionID, p.documentID, p.unitID,
                 p.canonicalLocator, p.contentSHA256) in catalog.units
  }

  /** Positions and offsets fit the integer columns. */
  predicate ColumnsFit(item: ActualEvidence) {
    && item.position <= MAX_INT32 && item.markerPosition <= MAX_INT32
    && item.provenance.startOffset <= MAX_INT32 && item.provenance.endOffset <= MAX_INT32
  }

  predicate EvidenceFits(evidence: seq<ActualEvidence>) {
    forall n | 0 <= n < |evidence| :: ColumnsFit(evidence[n])
  }

  ghost predicate StorableEvidence(catalog: Catalog, claim: ClaimedCase, evidence: seq<ActualEvidence>) {
    && NumberedPerKind(evidence)
    && forall n | 0 <= n < |evidence| ::
         EvidenceFieldsValid(claim, evidence[n]) && InSnapshot(catalog, evidence[n].provenance) && ColumnsFit(evidence[n])
  }

  // ---------------------------------------------------------------- Metric rows

  function MetricRowOf(m: Metric, scorerVersion: string): MetricRow {
    if m.state == Scored then MetricRow(Scored, m.value, Some(m.numerator), Some(m.denominator), m.rationale, scorerVersion)
    else MetricRow(m.state, None, None, None, m.rationale, scorerVersion)
  }

  /** The rows persisted for a list of metrics, by component. */
  function MetricTable(metrics: seq<Metric>, scorerVersion: string): map<MetricName, MetricRow> {
    if metrics == [] then map[]
    else
      var last := metrics[|metrics| - 1];
      MetricTable(metrics[..|metrics| - 1], scorerVersion)[last.name := MetricRowOf(last, scorerVersion)]
  }

  const FAILURE_RATIONALE: string := "terminal failure or cancellation is not assigned a synthetic score"

  /** Failed and cancelled cases get ten unscored rows, whatever metrics came with the result. */
  function UnscoredTable(scorerVersion: string): map<MetricName, MetricRow> {
    map name | name in TerminalMetricNames :: MetricRow(NotScored, None, None, None, FAILURE_RATIONALE, scorerVersion)
  }

  ghost predicate StorableMetrics(result: TerminalCaseResult, policy: string) {
    TerminalFailure(result.state) || (RequiredMetricSet(result.metrics) && result.scoringPolicyVersion == policy)
  }

  function TerminalTable(result: TerminalCaseResult, policy: string): map<MetricName, MetricRow> {
    if TerminalFailure(result.state) then UnscoredTable(policy) else MetricTable(result.metrics, result.scoringPolicyVersion)
  }

  // ---------------------------------------------------------------- Aggregation

  /** The metric rows of the run's terminal cases. */
  function RunMetrics(db: Db, run: Uuid): map<Uuid, map<MetricName, MetricRow>> {
    map c | c in db.metrics && c in db.cases && db.cases[c].runID == run && TerminalCase(db.cases[c].state) :: db.metrics[c]
  }

  predicate InGroup(rows: map<MetricName, MetricRow>, g: Group) {
    g.name in rows && rows[g.name].scorerVersion == g.scorerVersion
  }

  function Bit(rows: map<MetricName, MetricRow>, g: Group, state: MetricState): int {
    if InGroup(rows, g) && rows[g.name].state == state then 1 else 0
  }

  function NumeratorIn(rows: map<MetricName, MetricRow>, g: Group): int {
    if InGroup(rows, g) && rows[g.name].state == Scored && rows[g.name].numerator.Some? then rows[g.name].numerator.value else 0
  }

  function DenominatorIn(rows: map<MetricName, MetricRow>, g: Group): int {
    if InGroup(rows, g) && rows[g.name].state == Scored && rows[g.name].denominator.Some? then rows[g.name].denominator.value else 0
  }

  function Bits(rows: map<Uuid, map<MetricName, MetricRow>>, g: Group, state: MetricState): map<Uuid, int> {
    map c | c in rows :: Bit(rows[c], g, state)
  }

  function Numerators(rows: map<Uuid, map<MetricName, MetricRow>>, g: Group): map<Uuid, int> {
    map c | c in rows :: NumeratorIn(rows[c], g)
  }

  function Denominators(rows: map<Uuid, map<MetricName, MetricRow>>, g: Group): map<Uuid, int> {
    map c | c in rows :: DenominatorIn(rows[c], g)
  }

  ghost function CountsOf(rows: map<Uuid, map<MetricName, MetricRow>>, g: Group): Counts {
    Counts(Sum(Bits(rows, g, Scored)), Sum(Numerators(rows, g)), Sum(Denominators(rows, g)),
           Sum(Bits(rows, g, NotApplicable)), Sum(Bits(rows, g, NotScored)), Sum(Bits(rows, g, NeedsHumanReview)))
  }

  /** The query's groups: every component and scorer version that occurs. */
  function Groups(rows: map<Uuid, map<MetricName, MetricRow>>): set<Group> {
    set c, name | c in rows && name in rows[c] :: Group(name, rows[c][name].scorerVersion)
  }

  /** aggregateMetricValue. A zero denominator has no quotient and fails the arithmetic check of the table. */
  function AggregateOf(counts: Counts): AggregateRow {
    if counts.scored > 0 then
      AggregateRow(Scored,
                   if counts.denominator != 0 then Some(counts.numerator as real / counts.denominator as real) else None,
                   Some(counts.numerator), Some(counts.denominator), counts)
    else if counts.notScored > 0 then AggregateRow(NotScored, None, None, None, counts)
    else if counts.needsReview > 0 then AggregateRow(NeedsHumanReview, None, None, None, counts)
    else AggregateRow(NotApplicable, None, None, None, counts)
  }

  /** Sums fit the integer columns and no scored aggregate divides by zero. */
  predicate StorableCounts(counts: Counts) {
    && -MAX_INT64 - 1 <= counts.numerator <= MAX_INT64 && -MAX_INT64 - 1 <= counts.denominator <= MAX_INT64
    && (counts.scored > 0 ==> counts.denominator > 0)
  }

  /** The rows of the aggregate query. */
  ghost function GroupCounts(rows: map<Uuid, map<MetricName, MetricRow>>): map<Group, Counts> {
    map g | g in Groups(rows) :: CountsOf(rows, g)
  }

  predicate AllStorable(counts: map<Group, Counts>) {
    forall g | g in counts :: StorableCounts(counts[g])
  }

  function AggregatesFrom(counts: map<Group, Counts>): map<Group, AggregateRow> {
    map g | g in counts :: AggregateOf(counts[g])
  }

  ghost predicate StorableAggregates(rows: map<Uuid, map<MetricName, MetricRow>>) {
    AllStorable(GroupCounts(rows))
  }

  ghost function AggregateRows(rows: map<Uuid, map<MetricName, MetricRow>>): map<Group, AggregateRow> {
    AggregatesFrom(GroupCounts(rows))
  }

  // ---------------------------------------------------------------- Finalisation

  function InState(db: Db, run: Uuid, state: CaseState): set<Uuid> {
    set c | c in db.cases && db.cases[c].runID == run && db.cases[c].state == state
  }

  function TerminalRunState(completed: nat, abstained: nat, failed: nat, cancelled: nat): RunState {
    if completed + abstained == 0 then RunFailed
    else if failed + cancelled > 0 then RunCompletedWithFailures
    else RunCompleted
  }

  ghost function FinalState(db: Db, run: Uuid): RunState {
    TerminalRunState(|InState(db, run, Completed)|, |InState(db, run, Abstained)|,
                     |InState(db, run, Failed)|, |InState(db, run, Cancelled)|)
  }

  /** finalizeRunIfTerminal: None stands for a storage error that rolls the transaction back. */
  ghost function Finalize(db: Db, run: Uuid): Option<Db> {
    if InState(db, run, Pending) + InState(db, run, Leased) != {} then Some(db)
    else
      var rows := RunMetrics(db, run);
      if run in db.aggregates || !StorableAggregates(rows) then None
      else Some(db.(
        aggregates := db.aggregates[run := AggregateRows(rows)],
        runs := if run in db.runs && db.runs[run].state.Running?
                then db.runs[run := db.runs[run].(state := FinalState(db, run))] else db.runs))
  }

  // ---------------------------------------------------------------- Complete and ReleaseForRetry

  function NullIfEmpty(s: string): Option<string> {
    if s == "" then None else Some(s)
  }

  function CompletedRow(row: CaseRow, result: TerminalCaseResult): CaseRow {
    row.(state := result.state, lease := None,
         result := StoredResult(Some(result.answer), NullIfEmpty(result.graphGroundingState), NullIfEmpty(result.safeFailureCode),
                                result.latency, result.inputTokens, result.outputTokens))
  }

  /** The case row, its evidence and its metric rows, before the run is looked at. */
  ghost function WithTerminalCase(db: Db, claim: ClaimedCase, result: TerminalCaseResult): Db
    requires claim.id in db.cases && claim.runID in db.runs
  {
    db.(cases := db.cases[claim.id := CompletedRow(db.cases[claim.id], result)],
        evidence := db.evidence[claim.id := result.actualEvidence],
        metrics := db.metrics[claim.id := TerminalTable(result, db.runs[claim.runID].key.scoringPolicyVersion)])
  }

  /** Everything the store checks about a result while the lease is held. */
  ghost predicate StorableResult(catalog: Catalog, db: Db, claim: ClaimedCase, result: TerminalCaseResult)
    requires claim.id in db.cases
  {
    && ClaimNamesItsRun(db, claim)
    && (result.actualEvidence != [] ==> claim.snapshotID == db.runs[claim.runID].key.snapshotID)
    && StorableEvidence(catalog, claim, result.actualEvidence)
    && StorableMetrics(result, db.runs[claim.runID].key.scoringPolicyVersion)
    && (!TerminalFailure(result.state) ==> result.safeFailureCode == "")
    && claim.id !in db.metrics && claim.id !in db.evidence
  }

  ghost function Complete(catalog: Catalog, db: Db, claim: ClaimedCase, result: TerminalCaseResult): (Db, Status) {
    if !ValidClaim(claim) || !ValidTerminalResult(result) then (db, Rejected)
    else if !HoldsLease(db, claim) then (db, LeaseLost)
    else if !StorableResult(catalog, db, claim, result) then (db, Rejected)
    else
      var finalized := Finalize(WithTerminalCase(db, claim, result), claim.runID);
      if finalized.None? then (db, Rejected) else (finalized.value, Done)
  }

  function ReleasedRow(row: CaseRow): CaseRow {
    row.(state := Pending, lease := None, result := row.result.(failureCode := None))
  }

  function ExhaustedRow(row: CaseRow, failureCode: string): CaseRow {
    row.(state := Failed, lease := None, result := row.result.(failureCode := Some(failureCode)))
  }

  function WithExhaustedCase(db: Db, claim: ClaimedCase, failureCode: string): Db
    requires claim.id in db.cases && claim.runID in db.runs
  {
    db.(cases := db.cases[claim.id := ExhaustedRow(db.cases[claim.id], failureCode)],
        metrics := db.metrics[claim.id := UnscoredTable(db.runs[claim.runID].key.scoringPolicyVersion)])
  }

  ghost function ReleaseForRetry(db: Db, claim: ClaimedCase, failureCode: string, maxAttempts: int): (Db, Status) {
    if !ValidClaim(claim) || Blank(failureCode) || maxAttempts < 1 || maxAttempts > MAX_INT32 then (db, Rejected)
    else if !HoldsLease(db, claim) then (db, LeaseLost)
    else if db.cases[claim.id].attempts >= maxAttempts then
      if !ClaimNamesItsRun(db, claim) || claim.id in db.metrics then (db, Rejected)
      else
        var finalized := Finalize(WithExhaustedCase(db, claim, failureCode), claim.runID);
        if finalized.None? then (db, Rejected) else (finalized.value, Done)
    else
      var released := db.(cases := db.cases[claim.id := ReleasedRow(db.cases[claim.id])]);
      var finalized := Finalize(released, db.cases[claim.id].runID);
      if finalized.None? then (db, Rejected) else (finalized.value, Done)
  }

  // ---------------------------------------------------------------- Histories

  /** One repository call, with the clock, skipped locks and arguments it saw. */
  datatype Event =
    | CreateRunEvent(request: CreateRunRequest, now: nat)
    | ClaimEvent(workerID: string, now: nat, period: int, batch: int, locked: set<Uuid>)
    | CompleteEvent(claim: ClaimedCase, result: TerminalCaseResult)
    | ReleaseEvent(claim: ClaimedCase, failureCode: string, maxAttempts: int)

  ghost function Apply(catalog: Catalog, db: Db, e: Event): (Db, Status) {
    match e
    case CreateRunEvent(request, now) => CreateRun(catalog, db, request, now)
    case ClaimEvent(workerID, now, period, batch, locked) => Claim(catalog, db, workerID, now, period, batch, locked)
    case CompleteEvent(claim, result) => Complete(catalog, db, claim, result)
    case ReleaseEvent(claim, failureCode, maxAttempts) => ReleaseForRetry(db, claim, failureCode, maxAttempts)
  }

  /** The tables after a history of calls, by any workers in any interleaving. */
  ghost function Exec(catalog: Catalog, db: Db, history: seq<Event>): Db {
    if history == [] then db
    else Apply(catalog, Exec(catalog, db, history[..|history| - 1]), history[|history| - 1]).0
  }
}
