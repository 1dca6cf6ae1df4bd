/** What finalisation writes, and which results the ledger takes. */
module LedgerFinal {
  import opened Text
  import opened Evaluation
  import opened Sums
  import opened Ledger
  import opened LedgerInvariant
  import Scoring

  /** Complete metric rows for every case of a run. */
  ghost predicate FullRows(rows: map<Uuid, map<MetricName, MetricRow>>, policy: string) {
    forall c | c in rows :: rows[c].Keys == TerminalMetricNames && forall name | name in rows[c] :: RowOk(rows[c][name], policy)
  }

  ghost function TenGroups(policy: string): set<Group> {
    set name | name in TerminalMetricNames :: Group(name, policy)
  }

  lemma GroupsAreTheTenComponents(rows: map<Uuid, map<MetricName, MetricRow>>, policy: string)
    requires rows != map[] && FullRows(rows, policy)
    ensures Groups(rows) == TenGroups(policy)
  {
    var c :| c in rows;
    forall g | g in TenGroups(policy) ensures g in Groups(rows) {
      assert g.name in rows[c];
    }
  }

  lemma ThereAreTen(policy: string)
    ensures |TenGroups(policy)| == 10
  {
    var g := (name: MetricName) => Group(name, policy);
    assert TenGroups(policy) ==
           {g(RetrievalCoverage), g(CitationCoverage), g(CitationValidity), g(CitationScope), g(ExpectedAbstention),
            g(ExecutionState), g(Latency), g(InputTokens), g(OutputTokens), g(SemanticSupport)};
  }

  lemma OneStateEach(row: map<MetricName, MetricRow>, policy: string, g: Group)
    requires g in TenGroups(policy) && g.name in row && RowOk(row[g.name], policy)
    ensures Bit(row, g, Scored) + Bit(row, g, NotApplicable) + Bit(row, g, NotScored) + Bit(row, g, NeedsHumanReview) == 1
  {
  }

  lemma OneStatePerCase(rows: map<Uuid, map<MetricName, MetricRow>>, policy: string, g: Group)
    requires FullRows(rows, policy) && g in TenGroups(policy)
    ensures forall c | c in rows ::
              Bit(rows[c], g, Scored) + Bit(rows[c], g, NotApplicable) + Bit(rows[c], g, NotScored) + Bit(rows[c], g, NeedsHumanReview) == 1
  {
    forall c | c in rows
      ensures Bit(rows[c], g, Scored) + Bit(rows[c], g, NotApplicable) + Bit(rows[c], g, NotScored) + Bit(rows[c], g, NeedsHumanReview) == 1
    {
      assert g.name in rows[c].Keys;
      OneStateEach(rows[c], policy, g);
    }
  }

  lemma BitsPartition(rows: map<Uuid, map<MetricName, MetricRow>>, g: Group)
    requires forall c | c in rows ::
               Bit(rows[c], g, Scored) + Bit(rows[c], g, NotApplicable) + Bit(rows[c], g, NotScored) + Bit(rows[c], g, NeedsHumanReview) == 1
    ensures Sum(Bits(rows, g, Scored)) + Sum(Bits(rows, g, NotApplicable)) + Sum(Bits(rows, g, NotScored))
            + Sum(Bits(rows, g, NeedsHumanReview)) == |rows|
  {
    BitsSize(rows, g, Scored);
    forall c | c in rows
      ensures Bits(rows, g, Scored)[c] + Bits(rows, g, NotApplicable)[c] + Bits(rows, g, NotScored)[c]
              + Bits(rows, g, NeedsHumanReview)[c] == 1
    {
    }
    SumFourWays(Bits(rows, g, Scored), Bits(rows, g, NotApplicable), Bits(rows, g, NotScored), Bits(rows, g, NeedsHumanReview));
  }

  lemma BitsSize(rows: map<Uuid, map<MetricName, MetricRow>>, g: Group, state: MetricState)
    ensures Bits(rows, g, state).Keys == rows.Keys && |Bits(rows, g, state)| == |rows|
  {
    assert Bits(rows, g, state).Keys == rows.Keys;
    assert |Bits(rows, g, state)| == |Bits(rows, g, state).Keys| && |rows| == |rows.Keys|;
  }

  /** In each group every case is counted under exactly one of the four states. */
  lemma CountsCoverEveryCase(rows: map<Uuid, map<MetricName, MetricRow>>, policy: string, g: Group)
    requires FullRows(rows, policy) && g in TenGroups(policy)
    ensures var counts := CountsOf(rows, g);
            counts.scored + counts.notApplicable + counts.notScored + counts.needsReview == |rows|
  {
    OneStatePerCase(rows, policy, g);
    BitsPartition(rows, g);
  }

  lemma RowDivides(row: map<MetricName, MetricRow>, policy: string, g: Group)
    requires forall name | name in row :: RowOk(row[name], policy)
    ensures 0 <= Bit(row, g, Scored) <= DenominatorIn(row, g) && 0 <= NumeratorIn(row, g)
  {
    if InGroup(row, g) {
      assert RowOk(row[g.name], policy);
    }
  }

  lemma SumsDivide(rows: map<Uuid, map<MetricName, MetricRow>>, g: Group)
    requires forall c | c in rows :: 0 <= Bit(rows[c], g, Scored) <= DenominatorIn(rows[c], g) && 0 <= NumeratorIn(rows[c], g)
    ensures 0 <= Sum(Bits(rows, g, Scored)) <= Sum(Denominators(rows, g))
    ensures 0 <= Sum(Numerators(rows, g))
  {
    SumMonotone(Bits(rows, g, Scored), Denominators(rows, g));
    SumMonotone(map[], Bits(rows, g, Scored));
    SumMonotone(map[], Numerators(rows, g));
  }

  /** Scored groups have a positive denominator: the aggregate quotient never divides by zero. */
  lemma ScoredGroupsDivide(rows: map<Uuid, map<MetricName, MetricRow>>, policy: string, g: Group)
    requires FullRows(rows, policy)
    ensures 0 <= CountsOf(rows, g).scored <= CountsOf(rows, g).denominator
    ensures 0 <= CountsOf(rows, g).numerator
  {
    forall c | c in rows
      ensures 0 <= Bit(rows[c], g, Scored) <= DenominatorIn(rows[c], g) && 0 <= NumeratorIn(rows[c], g)
    {
      RowDivides(rows[c], policy, g);
    }
    SumsDivide(rows, g);
  }

  lemma FinishedRunRows(catalog: Catalog, db: Db, r: Uuid)
    requires forall c {:trigger CaseOk(catalog, db, c)} | c in db.cases :: CaseOk(catalog, db, c)
    requires r in db.runs && AllTerminal(db, r) && CasesOf(db, r) != {}
    ensures RunMetrics(db, r).Keys == CasesOf(db, r)
    ensures FullRows(RunMetrics(db, r), db.runs[r].key.scoringPolicyVersion)
    ensures RunMetrics(db, r) != map[]
  {
    forall c | c in CasesOf(db, r)
      ensures c in RunMetrics(db, r) && RunMetrics(db, r)[c] == db.metrics[c]
      ensures CompleteLedger(db.metrics[c], db.cases[c].state, db.runs[r].key.scoringPolicyVersion)
    {
      assert CaseOk(catalog, db, c);
    }
    var c :| c in CasesOf(db, r);
    assert c in RunMetrics(db, r);
  }

  /** The row of one group: its four counts add up, and its quotient is well defined exactly when scored. */
  ghost predicate SoundAggregate(row: AggregateRow, cases: nat) {
    var counts := row.counts;
    && counts.scored + counts.notApplicable + counts.notScored + counts.needsReview == cases
    && (row.state == Scored <==> counts.scored > 0)
    && (row.state == Scored ==>
          && row.numerator == Some(counts.numerator) && row.denominator == Some(counts.denominator)
          && 0 <= counts.numerator && 0 < counts.denominator
          && row.value == Some(counts.numerator as real / counts.denominator as real))
    && (row.state != Scored ==> row.value.None? && row.numerator.None? && row.denominator.None?)
  }

  lemma AggregateIsSound(counts: Counts, cases: nat)
    requires counts.scored + counts.notApplicable + counts.notScored + counts.needsReview == cases
    requires 0 <= counts.scored <= counts.denominator && 0 <= counts.numerator
    ensures SoundAggregate(AggregateOf(counts), cases)
  {
  }

  /** What every group of a complete ledger satisfies. */
  predicate GoodCounts(counts: Counts, cases: nat) {
    && counts.scored + counts.notApplicable + counts.notScored + counts.needsReview == cases
    && 0 <= counts.scored <= counts.denominator && 0 <= counts.numerator
  }

  lemma GroupIsGood(rows: map<Uuid, map<MetricName, MetricRow>>, policy: string, g: Group)
    requires FullRows(rows, policy) && g in TenGroups(policy)
    ensures GoodCounts(CountsOf(rows, g), |rows|)
  {
    CountsCoverEveryCase(rows, policy, g);
    ScoredGroupsDivide(rows, policy, g);
  }

  lemma GroupCountsRows(rows: map<Uuid, map<MetricName, MetricRow>>, counts: map<Group, Counts>)
    requires counts == GroupCounts(rows)
    ensures counts.Keys == Groups(rows)
    ensures forall g {:trigger counts[g]} | g in counts :: counts[g] == CountsOf(rows, g)
  {
  }

  lemma CountsAreGood(rows: map<Uuid, map<MetricName, MetricRow>>, policy: string, counts: map<Group, Counts>)
    requires FullRows(rows, policy) && counts.Keys == TenGroups(policy)
    requires forall g {:trigger counts[g]} | g in counts :: counts[g] == CountsOf(rows, g)
    ensures |counts| == 10
    ensures forall g {:trigger counts[g]} | g in counts :: GoodCounts(counts[g], |rows|)
  {
    ThereAreTen(policy);
    assert |counts| == |counts.Keys|;
    forall g | g in counts ensures GoodCounts(counts[g], |rows|) {
      GroupIsGood(rows, policy, g);
      assert counts[g] == CountsOf(rows, g);
    }
  }

  lemma GroupsAreGood(rows: map<Uuid, map<MetricName, MetricRow>>, policy: string, counts: map<Group, Counts>)
    requires FullRows(rows, policy) && rows != map[] && counts == GroupCounts(rows)
    ensures counts.Keys == TenGroups(policy) && |counts| == 10
    ensures forall g {:trigger counts[g]} | g in counts :: counts[g] == CountsOf(rows, g) && GoodCounts(counts[g], |rows|)
  {
    GroupsAreTheTenComponents(rows, policy);
    GroupCountsRows(rows, counts);
    CountsAreGood(rows, policy, counts);
  }

  lemma AggregatesAreSound(counts: map<Group, Counts>, cases: nat)
    requires forall g {:trigger counts[g]} | g in counts :: GoodCounts(counts[g], cases)
    ensures AggregatesFrom(counts).Keys == counts.Keys && |AggregatesFrom(counts)| == |counts|
    ensures forall g | g in AggregatesFrom(counts) :: SoundAggregate(AggregatesFrom(counts)[g], cases)
  {
    assert AggregatesFrom(counts).Keys == counts.Keys;
    assert |AggregatesFrom(counts)| == |AggregatesFrom(counts).Keys| && |counts| == |counts.Keys|;
    forall g | g in counts ensures SoundAggregate(AggregateOf(counts[g]), cases) {
      AggregateIsSound(counts[g], cases);
    }
  }

  lemma FullRowsAggregate(rows: map<Uuid, map<MetricName, MetricRow>>, policy: string)
    requires rows != map[] && FullRows(rows, policy)
    ensures AggregateRows(rows).Keys == TenGroups(policy) && |AggregateRows(rows)| == 10
    ensures forall g | g in AggregateRows(rows) :: SoundAggregate(AggregateRows(rows)[g], |rows|)
  {
    var counts := GroupCounts(rows);
    GroupsAreGood(rows, policy, counts);
    AggregatesAreSound(counts, |rows|);
  }

  /**
   A finished run has exactly ten aggregate rows, one per component under the run's policy;
   in each the four counts add up to the number of cases, and a scored one divides a
   non-negative numerator by a positive denominator.
   */
  lemma FinishedRunHasTenAggregates(catalog: Catalog, db: Db, r: Uuid)
    requires Inv(catalog, db) && r in db.runs && TerminalRun(db.runs[r].state)
    ensures r in db.aggregates && db.aggregates[r].Keys == TenGroups(db.runs[r].key.scoringPolicyVersion)
    ensures |db.aggregates[r]| == 10
    ensures forall g | g in db.aggregates[r] :: SoundAggregate(db.aggregates[r][g], |CasesOf(db, r)|)
  {
    var rows := RunMetrics(db, r);
    assert r in db.aggregates && AllTerminal(db, r) && CasesOf(db, r) != {} && db.aggregates[r] == AggregateRows(rows) by {
      assert RunOk(db, r);
    }
    FinishedRunRows(catalog, db, r);
    FullRowsAggregate(rows, db.runs[r].key.scoringPolicyVersion);
    assert |rows| == |rows.Keys|;
  }

  lemma FinalStateMeaning(db: Db, r: Uuid)
    requires forall c | c in CasesOf(db, r) :: TerminalCase(db.cases[c].state)
    requires CasesOf(db, r) != {}
    ensures TerminalRun(FinalState(db, r))
    ensures FinalState(db, r) == RunCompleted <==> forall c | c in CasesOf(db, r) :: !TerminalFailure(db.cases[c].state)
    ensures FinalState(db, r) == RunFailed <==> forall c | c in CasesOf(db, r) :: TerminalFailure(db.cases[c].state)
  {
    var good := InState(db, r, Completed) + InState(db, r, Abstained);
    var bad := InState(db, r, Failed) + InState(db, r, Cancelled);
    assert good == set c | c in CasesOf(db, r) && !TerminalFailure(db.cases[c].state);
    assert bad == set c | c in CasesOf(db, r) && TerminalFailure(db.cases[c].state);
    EmptyUnion(InState(db, r, Completed), InState(db, r, Abstained));
    EmptyUnion(InState(db, r, Failed), InState(db, r, Cancelled));
    var c :| c in CasesOf(db, r);
    assert c in good || c in bad;
    assert good == {} <==> forall c | c in CasesOf(db, r) :: TerminalFailure(db.cases[c].state) by {
      forall c | c in CasesOf(db, r) ensures c in good <==> !TerminalFailure(db.cases[c].state) {}
    }
    assert bad == {} <==> forall c | c in CasesOf(db, r) :: !TerminalFailure(db.cases[c].state) by {
      forall c | c in CasesOf(db, r) ensures c in bad <==> TerminalFailure(db.cases[c].state) {}
    }
  }

  lemma EmptyUnion(a: set<Uuid>, b: set<Uuid>)
    ensures |a| + |b| == 0 <==> a + b == {}
  {
  }

  /**
   A run is finished exactly when all its cases are. It is then completed when no case failed or
   was cancelled, failed when every case did, and completed with failures otherwise.
   */
  lemma RunStateFollowsCases(catalog: Catalog, db: Db, r: Uuid)
    requires Inv(catalog, db) && r in db.runs
    ensures TerminalRun(db.runs[r].state) <==> forall c | c in CasesOf(db, r) :: TerminalCase(db.cases[c].state)
    ensures TerminalRun(db.runs[r].state) ==>
              && (db.runs[r].state.RunCompleted? <==> forall c | c in CasesOf(db, r) :: !TerminalFailure(db.cases[c].state))
              && (db.runs[r].state.RunFailed? <==> forall c | c in CasesOf(db, r) :: TerminalFailure(db.cases[c].state))
  {
    assert RunOk(db, r);
    if TerminalRun(db.runs[r].state) {
      FinalStateMeaning(db, r);
    }
  }

  /** Every sum of the ten groups fits the integer column. */
  ghost predicate SumsFit(rows: map<Uuid, map<MetricName, MetricRow>>, policy: string) {
    forall g | g in TenGroups(policy) :: Sum(Numerators(rows, g)) <= MAX_INT64 && Sum(Denominators(rows, g)) <= MAX_INT64
  }

  lemma CountsFit(rows: map<Uuid, map<MetricName, MetricRow>>, g: Group, counts: Counts)
    requires counts == CountsOf(rows, g) && GoodCounts(counts, |rows|)
    ensures StorableCounts(counts) <==> Sum(Numerators(rows, g)) <= MAX_INT64 && Sum(Denominators(rows, g)) <= MAX_INT64
  {
  }

  lemma StorableExactlyWhenSumsFit(rows: map<Uuid, map<MetricName, MetricRow>>, policy: string)
    requires rows != map[] && FullRows(rows, policy)
    ensures StorableAggregates(rows) <==> SumsFit(rows, policy)
  {
    var counts := GroupCounts(rows);
    GroupsAreGood(rows, policy, counts);
    AllStorableMeansSumsFit(rows, policy, counts);
  }

  lemma AllStorableMeansSumsFit(rows: map<Uuid, map<MetricName, MetricRow>>, policy: string, counts: map<Group, Counts>)
    requires counts.Keys == TenGroups(policy)
    requires forall g {:trigger counts[g]} | g in counts :: counts[g] == CountsOf(rows, g) && GoodCounts(counts[g], |rows|)
    ensures AllStorable(counts) <==> SumsFit(rows, policy)
  {
    forall g | g in counts
      ensures StorableCounts(counts[g]) <==> Sum(Numerators(rows, g)) <= MAX_INT64 && Sum(Denominators(rows, g)) <= MAX_INT64
    {
      CountsFit(rows, g, counts[g]);
    }
  }

  /** Finalising a run whose cases are all terminal fails exactly when a sum leaves the integer range. */
  lemma FinalizeFailsExactlyOnOverflow(catalog: Catalog, db: Db, r: Uuid)
    requires BeforeFinalize(catalog, db, r) && AllTerminal(db, r)
    ensures Finalize(db, r).Some? <==> SumsFit(RunMetrics(db, r), db.runs[r].key.scoringPolicyVersion)
  {
    OpenOrTerminal(catalog, db, r);
    FinishedRunRows(catalog, db, r);
    StorableExactlyWhenSumsFit(RunMetrics(db, r), db.runs[r].key.scoringPolicyVersion);
  }

  // ---------------------------------------------------------------- Scored results are storable

  lemma {:induction false} KindCountConcat(a: seq<ActualEvidence>, b: seq<ActualEvidence>, kind: EvidenceKind)
    ensures KindCount(a + b, kind) == KindCount(a, kind) + KindCount(b, kind)
  {
    if b == [] {
      assert a + b == a;
    } else {
      KindCountConcat(a, b[..|b| - 1], kind);
      assert (a + b)[..|a + b| - 1] == a + b[..|b| - 1];
    }
  }

  lemma {:induction false} KindCountUniform(evidence: seq<ActualEvidence>, present: EvidenceKind, kind: EvidenceKind)
    requires forall n | 0 <= n < |evidence| :: evidence[n].kind == present
    ensures KindCount(evidence, kind) == if kind == present then |evidence| else 0
  {
    if evidence != [] {
      KindCountUniform(evidence[..|evidence| - 1], present, kind);
    }
  }

  /** Retrieved records followed by cited records carry the numbering the store checks. */
  lemma MaterializedEvidenceIsNumbered(actual: Scoring.MaterializedCase)
    requires Scoring.ValidMaterialized(actual)
    ensures NumberedPerKind(actual.retrieved + actual.cited)
  {
    var all := actual.retrieved + actual.cited;
    forall n | 0 <= n < |all|
      ensures all[n].position == KindCount(all[..n], all[n].kind) + 1
    {
      if n < |actual.retrieved| {
        assert all[..n] == actual.retrieved[..n];
        KindCountUniform(actual.retrieved[..n], Retrieved, Retrieved);
      } else {
        var m := n - |actual.retrieved|;
        assert all[..n] == actual.retrieved + actual.cited[..m];
        KindCountConcat(actual.retrieved, actual.cited[..m], Cited);
        KindCountUniform(actual.retrieved, Retrieved, Cited);
        KindCountUniform(actual.cited[..m], Cited, Cited);
      }
    }
  }

  /** Every check of the evidence store except membership in the snapshot holds of materialized evidence. */
  lemma MaterializedEvidencePassesFieldChecks(actual: Scoring.MaterializedCase, claim: ClaimedCase)
    requires Scoring.ValidMaterialized(actual)
    requires actual.corpusID == claim.corpusID && actual.snapshotID == claim.snapshotID
    ensures NumberedPerKind(actual.retrieved + actual.cited)
    ensures forall item | item in actual.retrieved + actual.cited :: EvidenceFieldsValid(claim, item)
  {
    MaterializedEvidenceIsNumbered(actual);
  }

  function TerminalState(state: Scoring.ExecutionOutcome): CaseState {
    match state
    case ExecCompleted => Completed
    case ExecAbstained => Abstained
    case ExecFailed => Failed
    case ExecCancelled => Cancelled
    case ExecOther(text) => OtherCaseState(text)
  }

  /** The terminal result that carries a materialized case and its score. */
  function ScoredResult(actual: Scoring.MaterializedCase, metrics: seq<Metric>, grounding: string, failureCode: string): TerminalCaseResult {
    TerminalCaseResult(
      TerminalState(actual.state), actual.answer, grounding,
      if Scoring.FailedExecution(actual.state) then failureCode else "",
      actual.latency, actual.inputTokens, actual.outputTokens,
      actual.retrieved + actual.cited, metrics, Scoring.SCORING_POLICY_V1)
  }

  lemma CitedMembersAreRetrievedMembers(catalog: Catalog, actual: Scoring.MaterializedCase)
    requires Scoring.ValidMaterialized(actual)
    requires forall n | 0 <= n < |actual.retrieved| :: InSnapshot(catalog, actual.retrieved[n].provenance)
    ensures forall n | 0 <= n < |actual.cited| :: InSnapshot(catalog, actual.cited[n].provenance)
  {
    Scoring.MarkersShape(actual.answer, |actual.retrieved|);
    Scoring.CitedComesFromRetrieved(actual.markers, actual.retrieved);
    forall n | 0 <= n < |actual.cited| ensures InSnapshot(catalog, actual.cited[n].provenance) {
      var k :| 0 <= k < |actual.retrieved| && actual.retrieved[k].provenance == actual.cited[n].provenance;
    }
  }

  /** A scored result, before the store looks at it. */
  lemma ScoredResultIsValid(
    result: Scoring.AgentCaseResult, corpusID: Uuid, snapshotID: Uuid, expectedOutcome: ExpectedOutcome,
    expected: seq<EvidenceProvenance>, why: Scoring.Rationales, grounding: string, failureCode: string)
    requires Scoring.AcceptableResult(corpusID, snapshotID, result) && !Blank(failureCode) && Scoring.NoneBlank(why)
    ensures var actual := Scoring.MaterializedOf(corpusID, snapshotID, result);
            var metrics := Scoring.ScoreMetrics(expectedOutcome, expected, actual, why);
            && RequiredMetricSet(metrics)
            && ValidTerminalResult(ScoredResult(actual, metrics, grounding, failureCode))
  {
    var actual := Scoring.MaterializedOf(corpusID, snapshotID, result);
    Scoring.ScoresAreStorableWith(expectedOutcome, expected, actual, why);
    ScoredResultShape(actual, Scoring.ScoreMetrics(expectedOutcome, expected, actual, why), grounding, failureCode);
  }

  lemma ScoredResultShape(actual: Scoring.MaterializedCase, metrics: seq<Metric>, grounding: string, failureCode: string)
    requires Scoring.ValidResultState(actual.state, actual.outcome, actual.answer) && !Blank(failureCode)
    requires ValidMeasurement(actual.latency) && ValidMeasurement(actual.inputTokens) && ValidMeasurement(actual.outputTokens)
    requires forall m | m in metrics :: ValidMetric(m)
    ensures ValidTerminalResult(ScoredResult(actual, metrics, grounding, failureCode))
  {
    assert !IsSpace(Scoring.SCORING_POLICY_V1[0]);
  }

  lemma ScoredEvidenceIsStorable(catalog: Catalog, actual: Scoring.MaterializedCase, claim: ClaimedCase)
    requires Scoring.ValidMaterialized(actual)
    requires actual.corpusID == claim.corpusID && actual.snapshotID == claim.snapshotID
    requires forall n | 0 <= n < |actual.retrieved| :: InSnapshot(catalog, actual.retrieved[n].provenance)
    ensures StorableEvidence(catalog, claim, actual.retrieved + actual.cited) <==> EvidenceFits(actual.retrieved + actual.cited)
  {
    MaterializedEvidencePassesFieldChecks(actual, claim);
    CitedMembersAreRetrievedMembers(catalog, actual);
    var evidence := actual.retrieved + actual.cited;
    forall n | 0 <= n < |evidence|
      ensures EvidenceFieldsValid(claim, evidence[n]) && InSnapshot(catalog, evidence[n].provenance)
    {
      assert evidence[n] in evidence;
    }
  }

  lemma ResultIsStorable(
    catalog: Catalog, db: Db, claim: ClaimedCase, actual: Scoring.MaterializedCase, metrics: seq<Metric>,
    grounding: string, failureCode: string)
    requires HoldsLease(db, claim) && ClaimNamesItsRun(db, claim)
    requires claim.snapshotID == db.runs[claim.runID].key.snapshotID
    requires db.runs[claim.runID].key.scoringPolicyVersion == Scoring.SCORING_POLICY_V1
    requires RequiredMetricSet(metrics) && TerminalCase(TerminalState(actual.state))
    requires claim.id !in db.metrics && claim.id !in db.evidence
    ensures StorableResult(catalog, db, claim, ScoredResult(actual, metrics, grounding, failureCode)) <==>
              StorableEvidence(catalog, claim, actual.retrieved + actual.cited)
  {
  }

  /** The scored form of an accepted agent result. */
  ghost function ScoredForm(
    corpusID: Uuid, snapshotID: Uuid, result: Scoring.AgentCaseResult, expectedOutcome: ExpectedOutcome,
    expected: seq<EvidenceProvenance>, why: Scoring.Rationales, grounding: string, failureCode: string): TerminalCaseResult
  {
    var actual := Scoring.MaterializedOf(corpusID, snapshotID, result);
    ScoredResult(actual, Scoring.ScoreMetrics(expectedOutcome, expected, actual, why), grounding, failureCode)
  }

  lemma AcceptedEvidenceIsStorable(catalog: Catalog, claim: ClaimedCase, result: Scoring.AgentCaseResult)
    requires Scoring.AcceptableResult(claim.corpusID, claim.snapshotID, result)
    requires forall n | 0 <= n < |result.retrieved| :: InSnapshot(catalog, result.retrieved[n])
    ensures var actual := Scoring.MaterializedOf(claim.corpusID, claim.snapshotID, result);
            && (StorableEvidence(catalog, claim, actual.retrieved + actual.cited) <==> EvidenceFits(actual.retrieved + actual.cited))
            && TerminalCase(TerminalState(actual.state))
  {
    var actual := Scoring.MaterializedOf(claim.corpusID, claim.snapshotID, result);
    Scoring.AcceptedResultsAreScoreable(claim.corpusID, claim.snapshotID, result, ExpectAnswer, []);
    ScoredEvidenceIsStorable(catalog, actual, claim);
  }

  /**
   Scoring meets the ledger: whatever agent result materialization accepts, scored against any
   expected evidence, the store takes it under a live lease of a version-one run, given that the
   retrieved evidence lies in the snapshot, exactly when positions and offsets fit their columns.
   */
  lemma ScoredResultsAreStorable(
    catalog: Catalog, db: Db, claim: ClaimedCase, result: Scoring.AgentCaseResult, expectedOutcome: ExpectedOutcome,
    expected: seq<EvidenceProvenance>, why: Scoring.Rationales, grounding: string, failureCode: string)
    requires claim.id in db.cases && CaseOk(catalog, db, claim.id)
    requires HoldsLease(db, claim) && ClaimNamesItsRun(db, claim)
    requires claim.snapshotID == db.runs[claim.runID].key.snapshotID
    requires db.runs[claim.runID].key.scoringPolicyVersion == Scoring.SCORING_POLICY_V1
    requires Scoring.AcceptableResult(claim.corpusID, claim.snapshotID, result) && !Blank(failureCode) && Scoring.NoneBlank(why)
    requires forall n | 0 <= n < |result.retrieved| :: InSnapshot(catalog, result.retrieved[n])
    ensures ValidTerminalResult(
              ScoredForm(claim.corpusID, claim.snapshotID, result, expectedOutcome, expected, why, grounding, failureCode))
    ensures var scored := ScoredForm(claim.corpusID, claim.snapshotID, result, expectedOutcome, expected, why, grounding, failureCode);
            StorableResult(catalog, db, claim, scored) <==> EvidenceFits(scored.actualEvidence)
  {
    var actual := Scoring.MaterializedOf(claim.corpusID, claim.snapshotID, result);
    ScoredResultIsValid(result, claim.corpusID, claim.snapshotID, expectedOutcome, expected, why, grounding, failureCode);
    AcceptedEvidenceIsStorable(catalog, claim, result);
    ResultIsStorable(catalog, db, claim, actual, Scoring.ScoreMetrics(expectedOutcome, expected, actual, why), grounding, failureCode);
  }

  /** What a caller can see of an agent result: few enough records, a short enough answer, offsets in range. */
  predicate SmallResult(result: Scoring.AgentCaseResult) {
    && |result.retrieved| <= MAX_INT32 && |result.answer| <= MAX_INT32
    && forall n | 0 <= n < |result.retrieved| :: result.retrieved[n].endOffset <= MAX_INT32
  }

  /** Small results fit: every position, marker position and offset they lead to is in range. */
  lemma SmallResultsFit(corpusID: Uuid, snapshotID: Uuid, result: Scoring.AgentCaseResult)
    requires Scoring.AcceptableResult(corpusID, snapshotID, result) && SmallResult(result)
    ensures var actual := Scoring.MaterializedOf(corpusID, snapshotID, result); EvidenceFits(actual.retrieved + actual.cited)
  {
    var actual := Scoring.MaterializedOf(corpusID, snapshotID, result);
    Scoring.MarkersShape(actual.answer, |actual.retrieved|);
    Scoring.MarkersWithinAnswer(actual.answer, |actual.retrieved|);
    Scoring.CitedComesFromRetrieved(actual.markers, actual.retrieved);
    Scoring.CitedWithinMarkers(actual.markers, actual.retrieved, |actual.markers|);
    forall n | 0 <= n < |actual.cited| ensures ColumnsFit(actual.cited[n]) {
      var k :| 0 <= k < |actual.retrieved| && actual.retrieved[k].provenance == actual.cited[n].provenance;
      assert result.retrieved[k].startOffset < result.retrieved[k].endOffset;
    }
    forall n | 0 <= n < |actual.retrieved| ensures ColumnsFit(actual.retrieved[n]) {
      assert result.retrieved[n].startOffset < result.retrieved[n].endOffset;
    }
  }
}
