/** The ledger's repository: transactions over mutable tables, loops and all. */
module LedgerStore {
  import opened Text
  import opened Evaluation
  import opened Sums
  import opened Ledger
  import opened LedgerInvariant
  import opened LedgerOutcomes
  import RunIdentities

  // ---------------------------------------------------------------- Request validation

  method ValidateRunCases(cases: seq<RunCase>) returns (ok: bool, runCaseIDs: set<Uuid>)
    ensures ok <==> ValidRunCases(cases)
    ensures ok ==> runCaseIDs == set c | c in cases :: c.id
  {
    var caseIDs: set<Uuid>, positions: set<int> := {}, {};
    runCaseIDs := {};
    for index := 0 to |cases|
      invariant forall i | 0 <= i < index :: ValidRunCase(cases[i])
      invariant forall i, j | 0 <= i < j < index ::
                  cases[i].datasetCaseID != cases[j].datasetCaseID && cases[i].position != cases[j].position
      invariant caseIDs == set i | 0 <= i < index :: cases[i].datasetCaseID
      invariant positions == set i | 0 <= i < index :: cases[i].position
      invariant runCaseIDs == set i | 0 <= i < index :: cases[i].id
    {
      var evaluationCase := cases[index];
      if !ValidRunCase(evaluationCase) || evaluationCase.datasetCaseID in caseIDs || evaluationCase.position in positions {
        return false, {};
      }
      caseIDs := caseIDs + {evaluationCase.datasetCaseID};
      positions := positions + {evaluationCase.position};
      runCaseIDs := runCaseIDs + {evaluationCase.id};
    }
    ok := true;
  }

  method ValidateRunExpectedEvidence(evidence: seq<ExpectedEvidence>, runCaseIDs: set<Uuid>) returns (ok: bool)
    ensures ok <==> forall i | 0 <= i < |evidence| :: ValidExpectedEvidence(evidence[i]) && evidence[i].runCaseID in runCaseIDs
  {
    for index := 0 to |evidence|
      invariant forall i | 0 <= i < index :: ValidExpectedEvidence(evidence[i]) && evidence[i].runCaseID in runCaseIDs
    {
      if !ValidExpectedEvidence(evidence[index]) || evidence[index].runCaseID !in runCaseIDs {
        return false;
      }
    }
    ok := true;
  }

  method ValidateRequest(request: CreateRunRequest) returns (ok: bool)
    ensures ok <==> ValidRequest(request)
  {
    if !ValidRunIdentity(request.identity) || |request.cases| == 0 {
      return false;
    }
    var casesOk, runCaseIDs := ValidateRunCases(request.cases);
    if !casesOk {
      return false;
    }
    ok := ValidateRunExpectedEvidence(request.evidence, runCaseIDs);
    assert forall id :: id in runCaseIDs <==> exists c :: c in request.cases && c.id == id;
  }

  method ValidateTerminalResult(result: TerminalCaseResult) returns (ok: bool)
    ensures ok <==> ValidTerminalResult(result)
  {
    if !ConsistentContent(result) {
      return false;
    }
    for index := 0 to |result.metrics|
      invariant forall i | 0 <= i < index :: ValidMetric(result.metrics[i])
    {
      if !ValidMetric(result.metrics[index]) {
        assert result.metrics[index] in result.metrics;
        return false;
      }
    }
    ok := true;
  }

  // ---------------------------------------------------------------- Inserting rows

  /** The row conditions of StorableRequest for cases. */
  ghost predicate InsertableCases(catalog: Catalog, rows: map<Uuid, CaseRow>, key: ComparisonKey, cases: seq<RunCase>) {
    && (forall i | 0 <= i < |cases| :: cases[i].id !in rows && CaseFits(catalog, key, cases[i]))
    && (forall i, j | 0 <= i < j < |cases| :: cases[i].id != cases[j].id)
  }

  lemma InsertableCaseStep(catalog: Catalog, rows: map<Uuid, CaseRow>, identity: RunIdentity, cases: seq<RunCase>, n: nat, now: nat)
    requires n < |cases| && InsertableCases(catalog, rows, identity.key, cases[..n])
    ensures InsertableCases(catalog, rows, identity.key, cases[..n + 1]) <==>
              cases[n].id !in rows && CaseFits(catalog, identity.key, cases[n]) && cases[n].id !in RunCaseIDs(cases[..n])
    ensures !InsertableCases(catalog, rows, identity.key, cases[..n + 1]) ==> !InsertableCases(catalog, rows, identity.key, cases)
    ensures WithCases(rows, identity, cases[..n + 1], now)
         == WithCases(rows, identity, cases[..n], now)[cases[n].id := NewCaseRow(identity, cases[n], now)]
    ensures RunCaseIDs(cases[..n + 1]) == RunCaseIDs(cases[..n]) + {cases[n].id}
  {
    var earlier, longer := cases[..n], cases[..n + 1];
    assert longer == earlier + [cases[n]] && longer[..n] == earlier;
    InsertableCaseAppend(catalog, rows, identity.key, earlier, cases[n]);
  }

  lemma InsertableCaseAppend(catalog: Catalog, rows: map<Uuid, CaseRow>, key: ComparisonKey, earlier: seq<RunCase>, c: RunCase)
    requires InsertableCases(catalog, rows, key, earlier)
    ensures InsertableCases(catalog, rows, key, earlier + [c]) <==>
              c.id !in rows && CaseFits(catalog, key, c) && c.id !in RunCaseIDs(earlier)
  {
    var longer := earlier + [c];
    if InsertableCases(catalog, rows, key, longer) {
      assert longer[|earlier|] == c;
      forall d | d in earlier ensures d.id != c.id {
        var i :| 0 <= i < |earlier| && earlier[i] == d;
        assert longer[i] == d;
      }
    }
  }

  ghost function RunCaseIDs(cases: seq<RunCase>): set<Uuid> {
    set c | c in cases :: c.id
  }

  method InsertCases(catalog: Catalog, rows: map<Uuid, CaseRow>, identity: RunIdentity, cases: seq<RunCase>, now: nat)
    returns (inserted: Option<map<Uuid, CaseRow>>)
    ensures inserted.Some? <==> InsertableCases(catalog, rows, identity.key, cases)
    ensures inserted.Some? ==> inserted.value == WithCases(rows, identity, cases, now)
  {
    var table := rows;
    for index := 0 to |cases|
      invariant InsertableCases(catalog, rows, identity.key, cases[..index])
      invariant table == WithCases(rows, identity, cases[..index], now)
      invariant table.Keys == rows.Keys + RunCaseIDs(cases[..index])
    {
      var evaluationCase := cases[index];
      InsertableCaseStep(catalog, rows, identity, cases, index, now);
      if evaluationCase.id in table || !CaseFits(catalog, identity.key, evaluationCase) {
        return None;
      }
      table := table[evaluationCase.id := NewCaseRow(identity, evaluationCase, now)];
    }
    assert cases[..|cases|] == cases;
    inserted := Some(table);
  }

  /** The row identifiers in use once some evidence is inserted. */
  function TakenIDs(rows: map<Uuid, ExpectedEvidence>, evidence: seq<ExpectedEvidence>): set<Uuid> {
    rows.Keys + set e | e in evidence :: e.id
  }

  function ExpectedOrdinals(evidence: seq<ExpectedEvidence>): set<(Uuid, int)> {
    set e | e in evidence :: (e.runCaseID, e.ordinal)
  }

  /** One more expected evidence row fits beside the rows already inserted. */
  predicate FitsBeside(
    catalog: Catalog, rows: map<Uuid, ExpectedEvidence>, key: ComparisonKey, earlier: seq<ExpectedEvidence>, item: ExpectedEvidence)
  {
    && item.id !in TakenIDs(rows, earlier)
    && ExpectedFits(catalog, key, item)
    && (item.runCaseID, item.ordinal) !in ExpectedOrdinals(earlier)
  }

  /** Each row fits beside the ones before it. */
  predicate InsertableExpected(
    catalog: Catalog, rows: map<Uuid, ExpectedEvidence>, key: ComparisonKey, evidence: seq<ExpectedEvidence>)
  {
    evidence != [] ==>
      var earlier := evidence[..|evidence| - 1];
      InsertableExpected(catalog, rows, key, earlier) && FitsBeside(catalog, rows, key, earlier, evidence[|evidence| - 1])
  }

  /** Row by row insertion succeeds exactly when the conditions of StorableRequest hold. */
  lemma {:induction false} InsertableMeansStorable(
    catalog: Catalog, rows: map<Uuid, ExpectedEvidence>, key: ComparisonKey, evidence: seq<ExpectedEvidence>)
    ensures InsertableExpected(catalog, rows, key, evidence) <==>
              && (forall i | 0 <= i < |evidence| :: evidence[i].id !in rows && ExpectedFits(catalog, key, evidence[i]))
              && (forall i, j | 0 <= i < j < |evidence| ::
                    && evidence[i].id != evidence[j].id
                    && (evidence[i].runCaseID, evidence[i].ordinal) != (evidence[j].runCaseID, evidence[j].ordinal))
  {
    if evidence != [] {
      InsertableMeansStorable(catalog, rows, key, evidence[..|evidence| - 1]);
      assert evidence == evidence[..|evidence| - 1] + [evidence[|evidence| - 1]];
    }
  }

  /** Inserting stops at the first row that does not fit. */
  lemma {:induction false} InsertablePrefix(
    catalog: Catalog, rows: map<Uuid, ExpectedEvidence>, key: ComparisonKey, evidence: seq<ExpectedEvidence>, n: nat)
    requires n <= |evidence| && !InsertableExpected(catalog, rows, key, evidence[..n])
    ensures !InsertableExpected(catalog, rows, key, evidence)
    decreases |evidence|
  {
    if n < |evidence| {
      assert evidence[..|evidence| - 1][..n] == evidence[..n];
      InsertablePrefix(catalog, rows, key, evidence[..|evidence| - 1], n);
    } else {
      assert evidence[..n] == evidence;
    }
  }

  lemma ExpectedOneMore(
    catalog: Catalog, rows: map<Uuid, ExpectedEvidence>, key: ComparisonKey, earlier: seq<ExpectedEvidence>, item: ExpectedEvidence)
    ensures InsertableExpected(catalog, rows, key, earlier + [item]) <==>
              InsertableExpected(catalog, rows, key, earlier) && FitsBeside(catalog, rows, key, earlier, item)
    ensures WithExpected(rows, earlier + [item]) == WithExpected(rows, earlier)[item.id := item]
    ensures TakenIDs(rows, earlier + [item]) == TakenIDs(rows, earlier) + {item.id}
    ensures ExpectedOrdinals(earlier + [item]) == ExpectedOrdinals(earlier) + {(item.runCaseID, item.ordinal)}
  {
    assert (earlier + [item])[..|earlier|] == earlier;
  }

  lemma MisfitStopsInsertion(
    catalog: Catalog, rows: map<Uuid, ExpectedEvidence>, key: ComparisonKey, evidence: seq<ExpectedEvidence>, n: nat)
    requires n < |evidence| && !FitsBeside(catalog, rows, key, evidence[..n], evidence[n])
    ensures !InsertableExpected(catalog, rows, key, evidence)
  {
    assert evidence[..n + 1][..n] == evidence[..n];
    InsertablePrefix(catalog, rows, key, evidence, n + 1);
  }

  /** What insertion has built after some rows. */
  ghost predicate Inserted(
    catalog: Catalog, rows: map<Uuid, ExpectedEvidence>, key: ComparisonKey, earlier: seq<ExpectedEvidence>,
    table: map<Uuid, ExpectedEvidence>, ids: set<Uuid>, ordinals: set<(Uuid, int)>)
  {
    && InsertableExpected(catalog, rows, key, earlier) && table == WithExpected(rows, earlier)
    && ids == TakenIDs(rows, earlier) && ordinals == ExpectedOrdinals(earlier)
  }

  lemma InsertOne(
    catalog: Catalog, rows: map<Uuid, ExpectedEvidence>, key: ComparisonKey, earlier: seq<ExpectedEvidence>,
    item: ExpectedEvidence, table: map<Uuid, ExpectedEvidence>, ids: set<Uuid>, ordinals: set<(Uuid, int)>)
    requires Inserted(catalog, rows, key, earlier, table, ids, ordinals)
    ensures FitsBeside(catalog, rows, key, earlier, item) <==>
              item.id !in ids && ExpectedFits(catalog, key, item) && (item.runCaseID, item.ordinal) !in ordinals
    ensures FitsBeside(catalog, rows, key, earlier, item) ==>
              Inserted(catalog, rows, key, earlier + [item],
                       table[item.id := item], ids + {item.id}, ordinals + {(item.runCaseID, item.ordinal)})
  {
    ExpectedOneMore(catalog, rows, key, earlier, item);
  }

  method InsertExpected(catalog: Catalog, rows: map<Uuid, ExpectedEvidence>, key: ComparisonKey, evidence: seq<ExpectedEvidence>)
    returns (inserted: Option<map<Uuid, ExpectedEvidence>>)
    ensures inserted.Some? <==> InsertableExpected(catalog, rows, key, evidence)
    ensures inserted.Some? ==> inserted.value == WithExpected(rows, evidence)
  {
    var table: map<Uuid, ExpectedEvidence> := rows;
    var ids: set<Uuid>, ordinals: set<(Uuid, int)> := rows.Keys, {};
    for index := 0 to |evidence|
      invariant Inserted(catalog, rows, key, evidence[..index], table, ids, ordinals)
    {
      var item := evidence[index];
      InsertOne(catalog, rows, key, evidence[..index], item, table, ids, ordinals);
      if item.id in ids || !ExpectedFits(catalog, key, item) || (item.runCaseID, item.ordinal) in ordinals {
        MisfitStopsInsertion(catalog, rows, key, evidence, index);
        return None;
      }
      assert evidence[..index + 1] == evidence[..index] + [item];
      table := table[item.id := item];
      ids := ids + {item.id};
      ordinals := ordinals + {(item.runCaseID, item.ordinal)};
    }
    assert evidence[..|evidence|] == evidence;
    inserted := Some(table);
  }

  predicate StorableIdentity(catalog: Catalog, runs: map<Uuid, RunRow>, identity: RunIdentity) {
    var key := identity.key;
    && identity.id !in runs
    && (key.datasetRevisionID, key.corpusID, key.datasetContentSHA256) in catalog.revisions
    && (key.snapshotID, key.corpusID, key.snapshotManifestSHA256) in catalog.snapshots
  }

  lemma StorableParts(catalog: Catalog, db: Db, request: CreateRunRequest)
    ensures StorableRequest(catalog, db, request) <==>
              && StorableIdentity(catalog, db.runs, request.identity)
              && InsertableCases(catalog, db.cases, request.identity.key, request.cases)
              && InsertableExpected(catalog, db.expected, request.identity.key, request.evidence)
  {
    InsertableMeansStorable(catalog, db.expected, request.identity.key, request.evidence);
  }

  /** Everything the store checks about the n-th evidence item. */
  ghost predicate StorableItem(catalog: Catalog, claim: ClaimedCase, evidence: seq<ActualEvidence>, n: nat)
    requires n < |evidence|
  {
    && evidence[n].position == KindCount(evidence[..n], evidence[n].kind) + 1
    && EvidenceFieldsValid(claim, evidence[n]) && InSnapshot(catalog, evidence[n].provenance) && ColumnsFit(evidence[n])
  }

  lemma StorableItems(catalog: Catalog, claim: ClaimedCase, evidence: seq<ActualEvidence>)
    ensures StorableEvidence(catalog, claim, evidence) <==> forall n: nat | n < |evidence| :: StorableItem(catalog, claim, evidence, n)
  {
    if forall n: nat | n < |evidence| :: StorableItem(catalog, claim, evidence, n) {
      forall n | 0 <= n < |evidence|
        ensures evidence[n].position == KindCount(evidence[..n], evidence[n].kind) + 1
        ensures EvidenceFieldsValid(claim, evidence[n]) && InSnapshot(catalog, evidence[n].provenance) && ColumnsFit(evidence[n])
      {
        assert StorableItem(catalog, claim, evidence, n);
      }
    }
  }

  /** persistActualEvidence: a position counter per kind. */
  method CheckActualEvidence(catalog: Catalog, claim: ClaimedCase, evidence: seq<ActualEvidence>) returns (ok: bool)
    ensures ok <==> StorableEvidence(catalog, claim, evidence)
  {
    StorableItems(catalog, claim, evidence);
    var nextRetrieved, nextCited := 1, 1;
    for index := 0 to |evidence|
      invariant nextRetrieved == KindCount(evidence[..index], Retrieved) + 1
      invariant nextCited == KindCount(evidence[..index], Cited) + 1
      invariant forall n: nat | n < index :: StorableItem(catalog, claim, evidence, n)
    {
      var item := evidence[index];
      if !EvidenceFieldsValid(claim, item) || item.position != (if item.kind == Retrieved then nextRetrieved else nextCited)
         || !InSnapshot(catalog, item.provenance) || !ColumnsFit(item)
      {
        assert !StorableItem(catalog, claim, evidence, index);
        return false;
      }
      assert evidence[..index + 1][..index] == evidence[..index];
      if item.kind == Retrieved {
        nextRetrieved := nextRetrieved + 1;
      } else {
        nextCited := nextCited + 1;
      }
    }
    ok := true;
  }

  /** validateRequiredTerminalMetricSet: strike each name off the required set. */
  method CheckRequiredMetrics(metrics: seq<Metric>) returns (ok: bool)
    ensures ok <==> RequiredMetricSet(metrics)
  {
    if |metrics| != 10 {
      return false;
    }
    assert RequiredMetricSet(metrics) <==> NamesIn(metrics) == TerminalMetricNames;
    var required := TerminalMetricNames;
    for index := 0 to |metrics|
      invariant NamesIn(metrics[..index]) <= TerminalMetricNames
      invariant required == TerminalMetricNames - NamesIn(metrics[..index])
    {
      if metrics[index].name !in required {
        if metrics[index].name in TerminalMetricNames {
          RepeatedNameMissesOne(metrics, index);
        } else {
          assert metrics[index].name in NamesIn(metrics);
        }
        return false;
      }
      NamesInOneMore(metrics, index);
      required := required - {metrics[index].name};
    }
    assert metrics[..|metrics|] == metrics;
    ok := |required| == 0;
  }

  method InsertMetrics(metrics: seq<Metric>, scorerVersion: string) returns (table: map<MetricName, MetricRow>)
    ensures table == MetricTable(metrics, scorerVersion)
  {
    table := map[];
    for index := 0 to |metrics|
      invariant table == MetricTable(metrics[..index], scorerVersion)
    {
      assert metrics[..index + 1][..index] == metrics[..index];
      table := table[metrics[index].name := MetricRowOf(metrics[index], scorerVersion)];
    }
    assert metrics[..|metrics|] == metrics;
  }

  // ---------------------------------------------------------------- Queries

  /** The first of some rows in the claim query's order. */
  method FindFirst(db: Db, candidates: set<Uuid>) returns (first: Uuid)
    requires candidates != {} && candidates <= db.cases.Keys
    ensures first == First(db, candidates)
  {
    first :| first in candidates;
    var pending := candidates - {first};
    while pending != {}
      invariant pending <= candidates && first in candidates && first !in pending
      invariant forall d | d in candidates && d !in pending && d != first :: Before(db, first, d)
      decreases pending
    {
      var c :| c in pending;
      pending := pending - {c};
      if Before(db, c, first) {
        first := c;
      }
    }
    FirstWitness(db, candidates);
  }

  lemma SelectionStep(db: Db, remaining: set<Uuid>, first: Uuid, limit: nat)
    requires remaining != {} && remaining <= db.cases.Keys && limit > 0 && first == First(db, remaining)
    ensures Selection(db, remaining, limit) == [first] + Selection(db, remaining - {first}, limit - 1)
  {
  }

  /** The first rows of some candidates, at most limit of them. */
  method TakeInOrder(db: Db, candidates: set<Uuid>, limit: nat) returns (ids: seq<Uuid>)
    requires candidates <= db.cases.Keys
    ensures ids == Selection(db, candidates, limit)
  {
    ids := [];
    var remaining := candidates;
    while |ids| < limit && remaining != {}
      invariant remaining <= candidates && |ids| <= limit
      invariant ids + Selection(db, remaining, limit - |ids|) == Selection(db, candidates, limit)
      decreases remaining
    {
      var first := FindFirst(db, remaining);
      SelectionStep(db, remaining, first, limit - |ids|);
      ids := ids + [first];
      remaining := remaining - {first};
    }
    assert Selection(db, remaining, limit - |ids|) == [];
  }

  /** The claim query: ordered, bounded, skipping locked rows. */
  method SelectForClaim(catalog: Catalog, db: Db, now: nat, batch: nat, locked: set<Uuid>) returns (ids: seq<Uuid>)
    ensures ids == Selected(catalog, db, now, batch, locked)
  {
    var candidates := set c | c in db.cases && Claimable(catalog, db, c, now) && c !in locked;
    assert candidates == Candidates(catalog, db, locked, now);
    ids := TakeInOrder(db, candidates, batch);
  }

  method Total(m: map<Uuid, int>) returns (total: int)
    ensures total == Sum(m)
  {
    total := 0;
    var pending := m;
    while pending != map[]
      invariant total + Sum(pending) == Sum(m)
      decreases |pending|
    {
      var c :| c in pending;
      SumRemove(pending, c);
      total := total + pending[c];
      pending := pending - {c};
    }
  }

  /** One row of the aggregate query. */
  method CountGroup(rows: map<Uuid, map<MetricName, MetricRow>>, g: Group) returns (counts: Counts)
    ensures counts == CountsOf(rows, g)
  {
    var scored := Total(Bits(rows, g, Scored));
    var numerator := Total(Numerators(rows, g));
    var denominator := Total(Denominators(rows, g));
    var notApplicable := Total(Bits(rows, g, NotApplicable));
    var notScored := Total(Bits(rows, g, NotScored));
    var needsReview := Total(Bits(rows, g, NeedsHumanReview));
    counts := Counts(scored, numerator, denominator, notApplicable, notScored, needsReview);
  }

  /** The aggregate query: one row per group. */
  method QueryGroups(rows: map<Uuid, map<MetricName, MetricRow>>) returns (counts: map<Group, Counts>)
    ensures counts == GroupCounts(rows)
  {
    counts := map[];
    var groups := Groups(rows);
    var pending := groups;
    while pending != {}
      invariant pending <= groups && counts.Keys == groups - pending
      invariant forall g {:trigger counts[g]} | g in counts :: counts[g] == CountsOf(rows, g)
      decreases pending
    {
      var g :| g in pending;
      var row := CountGroup(rows, g);
      counts := counts[g := row];
      pending := pending - {g};
    }
  }

  /** persistRunAggregateMetrics: insert one row per group, or stop at the first the table refuses. */
  method PersistAggregates(counts: map<Group, Counts>) returns (table: Option<map<Group, AggregateRow>>)
    ensures table.Some? <==> AllStorable(counts)
    ensures table.Some? ==> table.value == AggregatesFrom(counts)
  {
    var pending := counts.Keys;
    var inserted: map<Group, AggregateRow> := map[];
    while pending != {}
      invariant pending <= counts.Keys && inserted.Keys == counts.Keys - pending
      invariant forall g {:trigger inserted[g]} | g in inserted :: StorableCounts(counts[g]) && inserted[g] == AggregateOf(counts[g])
      decreases pending
    {
      var g :| g in pending;
      if !StorableCounts(counts[g]) {
        return None;
      }
      inserted := inserted[g := AggregateOf(counts[g])];
      pending := pending - {g};
    }
    forall g | g in counts ensures StorableCounts(counts[g]) {
      assert inserted[g] == AggregateOf(counts[g]);
    }
    table := Some(inserted);
  }

  method FinalizeRunIfTerminal(db: Db, run: Uuid) returns (after: Option<Db>)
    ensures after == Finalize(db, run)
  {
    var open := InState(db, run, Pending) + InState(db, run, Leased);
    if |open| != 0 {
      return Some(db);
    }
    if run in db.aggregates {
      return None;
    }
    var rows := RunMetrics(db, run);
    var counts := QueryGroups(rows);
    var table := PersistAggregates(counts);
    if table.None? {
      return None;
    }
    var runs := db.runs;
    if run in runs && runs[run].state.Running? {
      var state := TerminalRunState(
        |InState(db, run, Completed)|, |InState(db, run, Abstained)|, |InState(db, run, Failed)|, |InState(db, run, Cancelled)|);
      runs := runs[run := runs[run].(state := state)];
    }
    after := Some(db.(aggregates := db.aggregates[run := table.value], runs := runs));
  }

  // ---------------------------------------------------------------- The repository

  /** The record a worker gets for row c once it is leased. */
  function ClaimRecord(catalog: Catalog, db: Db, c: Uuid, token: nat, expiresAt: nat): ClaimedCase
    requires c in db.cases && db.cases[c].runID in db.runs && db.cases[c].datasetCaseID in catalog.datasetCases
  {
    var row := db.cases[c];
    var run := db.runs[row.runID];
    ClaimedCase(c, row.runID, row.corpusID, run.key.snapshotID, row.datasetCaseID,
                catalog.datasetCases[row.datasetCaseID].question, run.experiment.strategy, run.experiment.fingerprint,
                run.experiment.agentBuild, run.experiment.chatModel, run.experiment.embeddingModel,
                row.attempts, token, expiresAt)
  }

  ghost predicate SelectedRows(catalog: Catalog, db: Db, ids: seq<Uuid>) {
    forall i | 0 <= i < |ids| ::
      ids[i] in db.cases && db.cases[ids[i]].runID in db.runs && db.cases[ids[i]].datasetCaseID in catalog.datasetCases
  }

  lemma SelectedHaveQuestions(catalog: Catalog, db: Db, now: nat, batch: nat, locked: set<Uuid>)
    ensures SelectedRows(catalog, db, Selected(catalog, db, now, batch, locked))
  {
    SelectionIsCandidates(db, Candidates(catalog, db, locked, now), batch);
  }

  /** The same record with its lease, attempt count and expiry filled in. */
  function LeasedRecord(selected: ClaimedCase, token: nat, attempts: int, expiresAt: nat): ClaimedCase {
    selected.(leaseToken := token, attemptCount := attempts, leaseExpiresAt := expiresAt)
  }

  /** The first n records are leased under consecutive tokens, the others still as selected. */
  ghost predicate LeasedTo(
    db: Db, ids: seq<Uuid>, selected: seq<ClaimedCase>, claims: seq<ClaimedCase>, n: nat, expiresAt: nat)
    requires |selected| == |ids| && n <= |ids| && DistinctLeasable(db, ids)
  {
    && |claims| == |ids|
    && (forall i {:trigger claims[i]} | 0 <= i < n ::
          claims[i] == LeasedRecord(selected[i], db.nextToken + i, db.cases[ids[i]].attempts + 1, expiresAt))
    && claims[n..] == selected[n..]
  }

  lemma LeasedOneMore(db: Db, ids: seq<Uuid>, selected: seq<ClaimedCase>, claims: seq<ClaimedCase>, n: nat, expiresAt: nat)
    requires |selected| == |ids| && n < |ids| && DistinctLeasable(db, ids)
    requires LeasedTo(db, ids, selected, claims, n, expiresAt)
    ensures claims[n] == selected[n]
    ensures LeasedTo(db, ids, selected,
              claims[n := LeasedRecord(selected[n], db.nextToken + n, db.cases[ids[n]].attempts + 1, expiresAt)], n + 1, expiresAt)
  {
    assert claims[n] == claims[n..][0] && selected[n] == selected[n..][0];
    assert claims[n + 1..] == claims[n..][1..] && selected[n + 1..] == selected[n..][1..];
  }

  /** The tables after the first n of some leases. */
  ghost function ClaimPrefix(db: Db, ids: seq<Uuid>, n: nat, workerID: string, expiresAt: nat): (after: Db)
    requires DistinctLeasable(db, ids) && n <= |ids|
    ensures n == 0 ==> after == db
    ensures n == |ids| ==> after == ClaimAll(db, ids, workerID, expiresAt)
  {
    assert ids[..|ids|] == ids;
    ClaimAll(db, ids[..n], workerID, expiresAt)
  }

  lemma LeaseStep(db: Db, ids: seq<Uuid>, n: nat, workerID: string, expiresAt: nat)
    requires DistinctLeasable(db, ids) && n < |ids|
    ensures var before := ClaimPrefix(db, ids, n, workerID, expiresAt);
            && ids[n] in before.cases && before.cases[ids[n]] == db.cases[ids[n]] && before.cases[ids[n]].runID in before.runs
            && before.nextToken == db.nextToken + n
            && ClaimPrefix(db, ids, n + 1, workerID, expiresAt) == ClaimOne(before, ids[n], workerID, expiresAt)
  {
    ClaimAllRows(db, ids[..n], workerID, expiresAt);
    assert ids[..n + 1][..n] == ids[..n];
    assert ids[n] !in ids[..n];
  }

  /** The first n of some rows are leased, in the tables and in the claim records. */
  ghost predicate Leasing(
    db: Db, ids: seq<Uuid>, selected: seq<ClaimedCase>, claims: seq<ClaimedCase>, working: Db, n: nat, workerID: string, expiresAt: nat)
    requires |selected| == |ids| && n <= |ids| && DistinctLeasable(db, ids)
  {
    && |claims| == |ids| && working == ClaimPrefix(db, ids, n, workerID, expiresAt)
    && LeasedTo(db, ids, selected, claims, n, expiresAt) && Countable(db, ids[..n])
  }

  lemma LeasingStarts(db: Db, ids: seq<Uuid>, selected: seq<ClaimedCase>, workerID: string, expiresAt: nat)
    requires |selected| == |ids| && DistinctLeasable(db, ids)
    ensures Leasing(db, ids, selected, selected, db, 0, workerID, expiresAt)
  {
  }

  lemma LeasingEnds(
    db: Db, ids: seq<Uuid>, selected: seq<ClaimedCase>, claims: seq<ClaimedCase>, working: Db, workerID: string, expiresAt: nat)
    requires |selected| == |ids| && DistinctLeasable(db, ids)
    requires Leasing(db, ids, selected, claims, working, |ids|, workerID, expiresAt)
    ensures Countable(db, ids) && working == ClaimAll(db, ids, workerID, expiresAt)
    ensures LeasedTo(db, ids, selected, claims, |ids|, expiresAt)
  {
    assert ids[..|ids|] == ids;
  }

  lemma NextLease(
    db: Db, ids: seq<Uuid>, selected: seq<ClaimedCase>, claims: seq<ClaimedCase>, working: Db, n: nat, workerID: string, expiresAt: nat)
    requires DistinctLeasable(db, ids) && |selected| == |ids| && n < |ids| && selected[n].id == ids[n]
    requires Leasing(db, ids, selected, claims, working, n, workerID, expiresAt)
    ensures |claims| == |ids| && claims[n].id == ids[n] && ids[n] in working.cases && working.cases[ids[n]].runID in working.runs
    ensures working.cases[ids[n]].attempts >= MAX_INT32 ==> !Countable(db, ids)
  {
    LeaseStep(db, ids, n, workerID, expiresAt);
    LeasedOneMore(db, ids, selected, claims, n, expiresAt);
    CountOneMore(db, ids, n);
  }

  lemma OneMoreLease(
    db: Db, ids: seq<Uuid>, selected: seq<ClaimedCase>, claims: seq<ClaimedCase>, working: Db, n: nat, workerID: string, expiresAt: nat,
    next: Db, leased: seq<ClaimedCase>)
    requires DistinctLeasable(db, ids) && |selected| == |ids| && n < |ids| && |claims| == |ids|
    requires Leasing(db, ids, selected, claims, working, n, workerID, expiresAt)
    requires ids[n] in working.cases && working.cases[ids[n]].runID in working.runs && working.cases[ids[n]].attempts < MAX_INT32
    requires next == ClaimOne(working, ids[n], workerID, expiresAt)
    requires leased == claims[n := LeasedRecord(claims[n], next.nextToken - 1, next.cases[ids[n]].attempts, expiresAt)]
    ensures Leasing(db, ids, selected, leased, next, n + 1, workerID, expiresAt)
  {
    LeaseStep(db, ids, n, workerID, expiresAt);
    LeasedOneMore(db, ids, selected, claims, n, expiresAt);
    CountOneMore(db, ids, n);
    NextRow(working, ids[n], workerID, expiresAt);
    assert leased == claims[n := LeasedRecord(selected[n], db.nextToken + n, db.cases[ids[n]].attempts + 1, expiresAt)];
  }

  lemma NextRow(working: Db, c: Uuid, workerID: string, expiresAt: nat)
    requires c in working.cases && working.cases[c].runID in working.runs
    ensures var next := ClaimOne(working, c, workerID, expiresAt);
            next.nextToken == working.nextToken + 1 && c in next.cases && next.cases[c].attempts == working.cases[c].attempts + 1
  {
  }

  /** Lease the selected rows one by one, completing each claim record in place, until a counter cannot be raised. */
  method LeaseAll(db: Db, selected: seq<ClaimedCase>, ghost ids: seq<Uuid>, workerID: string, expiresAt: nat)
    returns (counted: bool, working: Db, claims: seq<ClaimedCase>)
    requires DistinctLeasable(db, ids) && |selected| == |ids|
    requires forall i {:trigger selected[i]} | 0 <= i < |ids| :: selected[i].id == ids[i]
    ensures counted <==> Countable(db, ids)
    ensures counted ==> working == ClaimAll(db, ids, workerID, expiresAt)
    ensures counted ==> LeasedTo(db, ids, selected, claims, |ids|, expiresAt)
  {
    claims := selected;
    working := db;
    LeasingStarts(db, ids, selected, workerID, expiresAt);
    for index := 0 to |selected|
      invariant Leasing(db, ids, selected, claims, working, index, workerID, expiresAt)
    {
      NextLease(db, ids, selected, claims, working, index, workerID, expiresAt);
      var claim := claims[index];
      if working.cases[claim.id].attempts >= MAX_INT32 {
        counted := false;
        return;
      }
      var next := ClaimOne(working, claim.id, workerID, expiresAt);
      var leased := claims[index := LeasedRecord(claim, next.nextToken - 1, next.cases[claim.id].attempts, expiresAt)];
      OneMoreLease(db, ids, selected, claims, working, index, workerID, expiresAt, next, leased);
      working, claims := next, leased;
    }
    LeasingEnds(db, ids, selected, claims, working, workerID, expiresAt);
    counted := true;
  }

  lemma CountOneMore(db: Db, ids: seq<Uuid>, n: nat)
    requires n < |ids| && ids[n] in db.cases && Countable(db, ids[..n])
    ensures Countable(db, ids[..n + 1]) <==> db.cases[ids[n]].attempts < MAX_INT32
    ensures db.cases[ids[n]].attempts >= MAX_INT32 ==> !Countable(db, ids)
  {
    assert ids[..n + 1] == ids[..n] + [ids[n]] && ids[n] in ids;
  }

  /** Each claim holds the lease of its row and repeats the row, its run and its question. */
  ghost predicate ClaimsDescribe(catalog: Catalog, after: Db, ids: seq<Uuid>, claims: seq<ClaimedCase>, firstToken: nat, expiresAt: nat) {
    && |claims| == |ids|
    && SelectedRows(catalog, after, ids)
    && forall i {:trigger claims[i]} | 0 <= i < |ids| ::
         && claims[i] == ClaimRecord(catalog, after, ids[i], firstToken + i, expiresAt) && HoldsLease(after, claims[i])
         && after.cases[ids[i]].lease.value.expiresAt == expiresAt
  }

  /** Every claim record of a batch repeats its row, its run and its question. */
  lemma ClaimsNameTheirCases(
    catalog: Catalog, after: Db, ids: seq<Uuid>, claims: seq<ClaimedCase>, firstToken: nat, expiresAt: nat, i: nat)
    requires ClaimsDescribe(catalog, after, ids, claims, firstToken, expiresAt) && i < |claims|
    ensures claims[i].id == ids[i] && NamesCase(catalog, after, claims[i])
  {
    assert claims[i] == ClaimRecord(catalog, after, ids[i], firstToken + i, expiresAt);
  }

  lemma ClaimsMatchRows(
    catalog: Catalog, db: Db, ids: seq<Uuid>, after: Db, selected: seq<ClaimedCase>, claims: seq<ClaimedCase>,
    workerID: string, expiresAt: nat)
    requires DistinctLeasable(db, ids) && SelectedRows(catalog, db, ids) && after == ClaimAll(db, ids, workerID, expiresAt)
    requires |selected| == |ids|
    requires forall i {:trigger selected[i]} | 0 <= i < |ids| :: selected[i] == ClaimRecord(catalog, db, ids[i], 0, 0)
    requires LeasedTo(db, ids, selected, claims, |ids|, expiresAt)
    ensures ClaimsDescribe(catalog, after, ids, claims, db.nextToken, expiresAt)
  {
    ClaimAllRows(db, ids, workerID, expiresAt);
    RunIdentities.ClaimAllKeepsRuns(db, ids, workerID, expiresAt);
    forall i | 0 <= i < |ids|
      ensures ids[i] in after.cases && after.cases[ids[i]].runID in after.runs
      ensures after.cases[ids[i]].datasetCaseID in catalog.datasetCases
      ensures claims[i] == ClaimRecord(catalog, after, ids[i], db.nextToken + i, expiresAt) && HoldsLease(after, claims[i])
      ensures after.cases[ids[i]].lease.value.expiresAt == expiresAt
    {
      assert RunIdentities.SameIdentity(db, after, db.cases[ids[i]].runID);
      assert claims[i] == LeasedRecord(selected[i], db.nextToken + i, db.cases[ids[i]].attempts + 1, expiresAt);
      assert selected[i] == ClaimRecord(catalog, db, ids[i], 0, 0);
    }
  }

  method LeaseSelected(catalog: Catalog, db: Db, ids: seq<Uuid>, workerID: string, expiresAt: nat)
    returns (counted: bool, working: Db, claims: seq<ClaimedCase>)
    requires DistinctLeasable(db, ids) && SelectedRows(catalog, db, ids)
    ensures counted <==> Countable(db, ids)
    ensures counted ==> working == ClaimAll(db, ids, workerID, expiresAt)
    ensures counted ==> ClaimsDescribe(catalog, working, ids, claims, db.nextToken, expiresAt)
  {
    var selected: seq<ClaimedCase> := [];
    for index := 0 to |ids|
      invariant |selected| == index
      invariant forall i {:trigger selected[i]} | 0 <= i < index :: selected[i] == ClaimRecord(catalog, db, ids[i], 0, 0)
    {
      selected := selected + [ClaimRecord(catalog, db, ids[index], 0, 0)];
    }
    counted, working, claims := LeaseAll(db, selected, ids, workerID, expiresAt);
    if counted {
      ClaimsMatchRows(catalog, db, ids, working, selected, claims, workerID, expiresAt);
    }
  }

  class Repository {
    const catalog: Catalog
    var runs: map<Uuid, RunRow>
    var cases: map<Uuid, CaseRow>
    var expected: map<Uuid, ExpectedEvidence>
    var evidence: map<Uuid, seq<ActualEvidence>>
    var metrics: map<Uuid, map<MetricName, MetricRow>>
    var aggregates: map<Uuid, map<Group, AggregateRow>>
    var nextToken: nat

    constructor (catalog: Catalog)
      ensures Tables() == EMPTY && this.catalog == catalog
    {
      this.catalog := catalog;
      runs, cases, expected, evidence, metrics, aggregates, nextToken := map[], map[], map[], map[], map[], map[], 1;
    }

    function Tables(): Db
      reads this
    {
      Db(runs, cases, expected, evidence, metrics, aggregates, nextToken)
    }

    method Commit(db: Db)
      modifies this
      ensures Tables() == db
    {
      runs, cases, expected, evidence := db.runs, db.cases, db.expected, db.evidence;
      metrics, aggregates, nextToken := db.metrics, db.aggregates, db.nextToken;
    }

    /** Any one call. */
    method Call(e: Event) returns (status: Status)
      modifies this
      ensures (Tables(), status) == Apply(catalog, old(Tables()), e)
    {
      match e {
        case CreateRunEvent(request, now) => status := CreateRun(request, now);
        case ClaimEvent(workerID, now, period, batch, locked) =>
          var claims;
          ghost var expiresAt;
          status, claims, expiresAt := Claim(workerID, now, period, batch, locked);
        case CompleteEvent(claim, result) => status := Complete(claim, result);
        case ReleaseEvent(claim, failureCode, maxAttempts) => status := ReleaseForRetry(claim, failureCode, maxAttempts);
      }
    }

    /** A history of calls, one after the other. */
    method Replay(history: seq<Event>)
      modifies this
      ensures Tables() == Exec(catalog, old(Tables()), history)
    {
      ghost var start := Tables();
      for index := 0 to |history|
        invariant Tables() == Exec(catalog, start, history[..index])
      {
        assert history[..index + 1][..index] == history[..index];
        var status := Call(history[index]);
      }
      assert history[..|history|] == history;
    }

    method CreateRun(request: CreateRunRequest, now: nat) returns (status: Status)
      modifies this
      ensures (Tables(), status) == Ledger.CreateRun(catalog, old(Tables()), request, now)
      ensures status == Done ==> RunStored(old(Tables()), Tables(), request, now)
    {
      CreateRunStoresRequest(catalog, Tables(), request, now);
      var ok := ValidateRequest(request);
      if !ok {
        return Rejected;
      }
      var identity := request.identity;
      StorableParts(catalog, Tables(), request);
      if !StorableIdentity(catalog, runs, identity) {
        return Rejected;
      }
      var caseRows := InsertCases(catalog, cases, identity, request.cases, now);
      if caseRows.None? {
        return Rejected;
      }
      var evidenceRows := InsertExpected(catalog, expected, identity.key, request.evidence);
      if evidenceRows.None? {
        return Rejected;
      }
      runs := runs[identity.id := RunRow(identity.key, identity.experiment, identity.initiatedBy, Queued)];
      cases := caseRows.value;
      expected := evidenceRows.value;
      status := Done;
    }

    /** Claims are selected first and leased one by one in place. */
    method Claim(workerID: string, now: nat, period: int, batch: int, locked: set<Uuid>)
      returns (status: Status, claims: seq<ClaimedCase>, ghost expiresAt: nat)
      modifies this
      ensures (Tables(), status) == Ledger.Claim(catalog, old(Tables()), workerID, now, period, batch, locked)
      ensures status != Done ==> claims == []
      ensures status == Done ==>
                && expiresAt == now + period
                && ClaimsDescribe(catalog, Tables(), Selected(catalog, old(Tables()), now, batch, locked), claims, old(nextToken), expiresAt)
    {
      claims, expiresAt := [], 0;
      if Blank(workerID) || period <= 0 || batch < 1 {
        status := Rejected;
        return;
      }
      var expiry := now + period;
      expiresAt := expiry;
      var db := Tables();
      var ids := SelectForClaim(catalog, db, now, batch, locked);
      SelectedAreLeasable(catalog, db, now, batch, locked);
      SelectedHaveQuestions(catalog, db, now, batch, locked);
      var counted: bool, working: Db;
      counted, working, claims := LeaseSelected(catalog, db, ids, workerID, expiry);
      if !counted {
        claims := [];
        status := Rejected;
        return;
      }
      Commit(working);
      status := Done;
    }

    method Complete(claim: ClaimedCase, result: TerminalCaseResult) returns (status: Status)
      modifies this
      ensures (Tables(), status) == Ledger.Complete(catalog, old(Tables()), claim, result)
      ensures status == Done ==>
                && claim.runID in old(runs) && OthersUntouched(old(Tables()), Tables(), claim.id, claim.runID)
                && HoldsAnswer(old(Tables()), Tables(), claim.id, result, old(runs)[claim.runID].key.scoringPolicyVersion)
    {
      CompletionStoresResult(catalog, Tables(), claim, result);
      var valid := ValidateTerminalResult(result);
      if !ValidClaim(claim) || !valid {
        return Rejected;
      }
      var db := Tables();
      if !HoldsLease(db, claim) {
        return LeaseLost;
      }
      if !ClaimNamesItsRun(db, claim) || claim.id in metrics || claim.id in evidence {
        return Rejected;
      }
      if result.actualEvidence != [] && claim.snapshotID != runs[claim.runID].key.snapshotID {
        return Rejected;
      }
      var evidenceOk := CheckActualEvidence(catalog, claim, result.actualEvidence);
      if !evidenceOk {
        return Rejected;
      }
      var table := PersistTerminalCaseMetrics(result, runs[claim.runID].key.scoringPolicyVersion);
      if table.None? || (!TerminalFailure(result.state) && result.safeFailureCode != "") {
        return Rejected;
      }
      var working := db.(
        cases := cases[claim.id := CompletedRow(cases[claim.id], result)],
        evidence := evidence[claim.id := result.actualEvidence],
        metrics := metrics[claim.id := table.value]);
      var finalized := FinalizeRunIfTerminal(working, claim.runID);
      if finalized.None? {
        return Rejected;
      }
      Commit(finalized.value);
      status := Done;
    }

    method ReleaseForRetry(claim: ClaimedCase, failureCode: string, maxAttempts: int) returns (status: Status)
      modifies this
      ensures (Tables(), status) == Ledger.ReleaseForRetry(old(Tables()), claim, failureCode, maxAttempts)
      ensures status == Done && Inv(catalog, old(Tables())) ==> ReleaseStores(old(Tables()), Tables(), claim, failureCode, maxAttempts)
    {
      ghost var sound := Inv(catalog, Tables());
      if sound {
        ReleaseStoresOutcome(catalog, Tables(), claim, failureCode, maxAttempts);
      }
      if !ValidClaim(claim) || Blank(failureCode) || maxAttempts < 1 || maxAttempts > MAX_INT32 {
        return Rejected;
      }
      var working := Tables();
      if !HoldsLease(working, claim) {
        return LeaseLost;
      }
      var runID := cases[claim.id].runID;
      if cases[claim.id].attempts >= maxAttempts {
        if !ClaimNamesItsRun(working, claim) || claim.id in metrics {
          return Rejected;
        }
        working := WithExhaustedCase(working, claim, failureCode);
      } else {
        working := working.(cases := cases[claim.id := ReleasedRow(cases[claim.id])]);
      }
      var finalized := FinalizeRunIfTerminal(working, runID);
      if finalized.None? {
        return Rejected;
      }
      Commit(finalized.value);
      status := Done;
    }
  }

  /** persistTerminalCaseMetrics: failures get ten unscored rows, other results must bring all ten. */
  method PersistTerminalCaseMetrics(result: TerminalCaseResult, policy: string) returns (table: Option<map<MetricName, MetricRow>>)
    ensures table.Some? <==> StorableMetrics(result, policy)
    ensures table.Some? ==> table.value == TerminalTable(result, policy)
  {
    if TerminalFailure(result.state) {
      return Some(UnscoredTable(policy));
    }
    if result.metrics != [] && result.scoringPolicyVersion != policy {
      return None;
    }
    var complete := CheckRequiredMetrics(result.metrics);
    if !complete {
      return None;
    }
    var rows := InsertMetrics(result.metrics, result.scoringPolicyVersion);
    table := Some(rows);
  }
}
