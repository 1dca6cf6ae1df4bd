/** Ledgers reached from empty tables in which an answer is refused: by the store's checks, and by sums that do not fit. */
module LedgerExamples {
  import opened Text
  import opened Evaluation
  import opened Sums
  import opened Ledger
  import opened LedgerInvariant
  import opened LedgerHistory
  import opened LedgerStore
  import opened LedgerOutcomes
  import opened RunIdentities
  import opened WorkerAnswers
  import opened EvaluationWorker
  import LedgerFinal
  import Scoring

  // ---------------------------------------------------------------- One run of three cases

  function Zeros(n: nat): (s: string)
    ensures |s| == n && forall i | 0 <= i < n :: s[i] == '0'
  {
    seq(n, _ => '0')
  }

  const QUESTION := DatasetCase(1, 1, ExpectAnswer, "q")

  const CATALOG := Catalog(
    map[1 := QUESTION, 2 := QUESTION, 3 := QUESTION], {(1, 1, Zeros(64))}, {(1, 1, Zeros(64))}, {})

  const REQUEST := CreateRunRequest(
    RunIdentity(1, ComparisonKey(1, Zeros(64), 1, 1, Zeros(64), Zeros(64), Scoring.SCORING_POLICY_V1),
                Experiment("x", "x", "x", "x", "x"), "x"),
    [RunCase(1, 1, 1, ExpectAnswer), RunCase(2, 2, 2, ExpectAnswer), RunCase(3, 3, 3, ExpectAnswer)], [])

  /** The run is created, and one worker claims some of its cases. */
  function Opening(batch: int): seq<Event> {
    [CreateRunEvent(REQUEST, 0), ClaimEvent("x", 1, 1, batch, {})]
  }

  ghost function Created(): Db {
    CreateRun(CATALOG, EMPTY, REQUEST, 0).0
  }

  ghost function LeasedAfter(batch: int): Db {
    Exec(CATALOG, EMPTY, Opening(batch))
  }

  lemma RequestIsTaken()
    ensures ValidRequest(REQUEST) && StorableRequest(CATALOG, EMPTY, REQUEST)
  {
    assert !IsSpace("x"[0]) && !IsSpace(Scoring.SCORING_POLICY_V1[0]);
  }

  lemma ThreeCases()
    ensures Created().cases.Keys == {1, 2, 3} && Created().runs.Keys == {1} && Created().nextToken == 1
    ensures Created().runs[1].key == REQUEST.identity.key
    ensures forall c | c in Created().cases :: Claimable(CATALOG, Created(), c, 1) && Created().cases[c].runID == 1 && Created().cases[c].attempts == 0
  {
    RequestIsTaken();
    WithCasesRows(EMPTY.cases, REQUEST.identity, REQUEST.cases, 0);
    var after := WithCases(EMPTY.cases, REQUEST.identity, REQUEST.cases, 0);
    assert REQUEST.cases[0].id in after && REQUEST.cases[1].id in after && REQUEST.cases[2].id in after;
    forall c | c in after ensures c == 1 || c == 2 || c == 3 {
      var i :| 0 <= i < |REQUEST.cases| && REQUEST.cases[i].id == c;
    }
  }

  lemma OpeningUnfolds(batch: int)
    ensures LeasedAfter(batch) == Apply(CATALOG, Created(), ClaimEvent("x", 1, 1, batch, {})).0
  {
    ExecOneMore(CATALOG, EMPTY, Opening(batch), 0);
    ExecOneMore(CATALOG, EMPTY, Opening(batch), 1);
    assert Opening(batch)[..0] == [] && Opening(batch)[..1] == [Opening(batch)[0]] && Opening(batch)[..2] == Opening(batch);
  }

  /** The row of one claim of a batch. */
  ghost predicate RowTaken(catalog: Catalog, after: Db, c: Uuid, token: nat, workerID: string, expiresAt: nat) {
    && c in after.cases && after.cases[c].runID in after.runs && after.cases[c].datasetCaseID in catalog.datasetCases
    && after.cases[c].state.Leased? && after.cases[c].lease == Some(Lease(token, workerID, expiresAt))
  }

  lemma EveryRowTaken(catalog: Catalog, db: Db, ids: seq<Uuid>, workerID: string, expiresAt: nat, i: nat)
    requires DistinctLeasable(db, ids) && SelectedRows(catalog, db, ids) && i < |ids|
    ensures RowTaken(catalog, ClaimAll(db, ids, workerID, expiresAt), ids[i], db.nextToken + i, workerID, expiresAt)
  {
    ClaimAllRows(db, ids, workerID, expiresAt);
    ClaimAllKeepsRuns(db, ids, workerID, expiresAt);
    assert SameIdentity(db, ClaimAll(db, ids, workerID, expiresAt), db.cases[ids[i]].runID);
  }

  lemma TakenRowsMakeClaims(catalog: Catalog, after: Db, ids: seq<Uuid>, firstToken: nat, workerID: string, expiresAt: nat)
    returns (claims: seq<ClaimedCase>)
    requires forall i {:trigger ids[i]} | 0 <= i < |ids| :: RowTaken(catalog, after, ids[i], firstToken + i, workerID, expiresAt)
    ensures ClaimsDescribe(catalog, after, ids, claims, firstToken, expiresAt)
  {
    claims := seq(|ids|, i requires 0 <= i < |ids| => ClaimRecord(catalog, after, ids[i], firstToken + i, expiresAt));
  }

  /** The claims a batch gets, as the store hands them out. */
  lemma ClaimsExist(catalog: Catalog, db: Db, ids: seq<Uuid>, workerID: string, expiresAt: nat) returns (claims: seq<ClaimedCase>)
    requires DistinctLeasable(db, ids) && SelectedRows(catalog, db, ids)
    ensures ClaimsDescribe(catalog, ClaimAll(db, ids, workerID, expiresAt), ids, claims, db.nextToken, expiresAt)
  {
    var after := ClaimAll(db, ids, workerID, expiresAt);
    forall i | 0 <= i < |ids| ensures RowTaken(catalog, after, ids[i], db.nextToken + i, workerID, expiresAt) {
      EveryRowTaken(catalog, db, ids, workerID, expiresAt, i);
    }
    claims := TakenRowsMakeClaims(catalog, after, ids, db.nextToken, workerID, expiresAt);
  }

  /** A sound ledger with one run of three cases, some of them just claimed. */
  ghost predicate ExampleBatch(catalog: Catalog, leased: Db, batch: nat, ids: seq<Uuid>, claims: seq<ClaimedCase>) {
    && |claims| == |ids| == batch && Handed(catalog, leased, ids, claims, 1, 2)
    && leased.cases.Keys == {1, 2, 3} && (forall c | c in leased.cases :: leased.cases[c].runID == 1)
    && 1 in leased.runs && leased.runs[1].key.scoringPolicyVersion == Scoring.SCORING_POLICY_V1
    && (forall i | 0 <= i < batch :: claims[i].id == ids[i] && ids[i] in {1, 2, 3} && claims[i].runID == 1 && !Blank(claims[i].question))
  }

  lemma ThreeCandidates()
    ensures Candidates(CATALOG, Created(), {}, 1) == {1, 2, 3} && |Candidates(CATALOG, Created(), {}, 1)| == 3
  {
    ThreeCases();
    assert Candidates(CATALOG, Created(), {}, 1) == {1, 2, 3};
  }

  lemma SelectedAreCountable(batch: nat)
    ensures Countable(Created(), Selected(CATALOG, Created(), 1, batch, {}))
  {
    ThreeCases();
    SelectionIsCandidates(Created(), Candidates(CATALOG, Created(), {}, 1), batch);
  }

  lemma ClaimTakesSelected(batch: nat)
    requires 1 <= batch
    ensures LeasedAfter(batch) == ClaimAll(Created(), Selected(CATALOG, Created(), 1, batch, {}), "x", 2)
  {
    OpeningUnfolds(batch);
    SelectedAreCountable(batch);
    CountableClaim(CATALOG, Created(), "x", 1, 1, batch);
  }

  lemma CountableClaim(catalog: Catalog, db: Db, workerID: string, now: nat, period: int, batch: int)
    requires workerID == "x" && period > 0 && batch >= 1 && Countable(db, Selected(catalog, db, now, batch, {}))
    ensures Claim(catalog, db, workerID, now, period, batch, {})
         == (ClaimAll(db, Selected(catalog, db, now, batch, {}), workerID, now + period), Done)
  {
    assert !IsSpace(workerID[0]);
  }

  lemma ThreeSelected(batch: nat) returns (ids: seq<Uuid>)
    requires 1 <= batch <= 3
    ensures ids == Selected(CATALOG, Created(), 1, batch, {}) && |ids| == batch
    ensures DistinctLeasable(Created(), ids) && SelectedRows(CATALOG, Created(), ids)
    ensures forall i | 0 <= i < batch :: ids[i] in {1, 2, 3}
  {
    ids := Selected(CATALOG, Created(), 1, batch, {});
    ThreeCandidates();
    SelectionIsCandidates(Created(), Candidates(CATALOG, Created(), {}, 1), batch);
    SelectedAreLeasable(CATALOG, Created(), 1, batch, {});
    SelectedHaveQuestions(CATALOG, Created(), 1, batch, {});
  }

  lemma ExampleClaim(batch: nat, ids: seq<Uuid>, claims: seq<ClaimedCase>, i: nat)
    requires Inv(CATALOG, LeasedAfter(batch)) && ClaimsDescribe(CATALOG, LeasedAfter(batch), ids, claims, 1, 2) && i < |ids|
    requires LeasedAfter(batch).cases.Keys == {1, 2, 3} && LeasedAfter(batch).cases[ids[i]].runID == 1
    requires LeasedAfter(batch).runs[1].key == REQUEST.identity.key
    ensures claims[i].id == ids[i] && claims[i].runID == 1 && !Blank(claims[i].question)
  {
    assert claims[i] == ClaimRecord(CATALOG, LeasedAfter(batch), ids[i], 1 + i, 2);
    assert CaseOk(CATALOG, LeasedAfter(batch), ids[i]);
    assert !IsSpace("q"[0]);
  }

  lemma LeasedTables(batch: nat)
    requires 1 <= batch <= 3
    ensures LeasedAfter(batch).cases.Keys == {1, 2, 3} && LeasedAfter(batch).runs.Keys == {1}
    ensures forall c | c in LeasedAfter(batch).cases :: LeasedAfter(batch).cases[c].runID == 1
    ensures LeasedAfter(batch).runs[1].key == REQUEST.identity.key
  {
    ThreeCases();
    ClaimTakesSelected(batch);
    var ids := ThreeSelected(batch);
    ClaimAllKeepsRuns(Created(), ids, "x", 2);
    assert SameIdentity(Created(), LeasedAfter(batch), 1);
  }

  lemma ExampleBatchExists(batch: nat) returns (ids: seq<Uuid>, claims: seq<ClaimedCase>)
    requires 1 <= batch <= 3
    ensures ExampleBatch(CATALOG, LeasedAfter(batch), batch, ids, claims)
  {
    ThreeCases();
    LeasedTables(batch);
    ClaimTakesSelected(batch);
    ids := ThreeSelected(batch);
    claims := ClaimsExist(CATALOG, Created(), ids, "x", 2);
    ReachableLedgersAreSound(CATALOG, Opening(batch));
    forall i | 0 <= i < batch ensures claims[i].id == ids[i] && claims[i].runID == 1 && !Blank(claims[i].question) {
      ExampleClaim(batch, ids, claims, i);
    }
  }

  // ---------------------------------------------------------------- A refused result stops the batch

  const PLAIN_REPLY := Reply(true, Scoring.MaterializedCase(
    1, 1, Scoring.ExecCompleted, Scoring.AgentCompleted, "yes", [], [], [], None, None, None), "")

  /** A batch in which no other worker calls and every claim is processed alike. */
  function Alone(claims: seq<ClaimedCase>, outcome: Option<TerminalCaseResult>, maxAttempts: int): (b: Batch)
    ensures Sized(b) && b.claims == claims
  {
    Batch(claims, seq(|claims|, _ => outcome), maxAttempts, seq(|claims|, _ => []))
  }

  /**
   Two cases are claimed and the agent answers both plainly. The store refuses the first answer, the
   second case is never answered, and both keep their leases until they expire.
   */
  lemma PlainReplyStopsTheBatch() returns (ids: seq<Uuid>, claims: seq<ClaimedCase>)
    ensures ExampleBatch(CATALOG, LeasedAfter(2), 2, ids, claims)
    ensures AnsweredUpTo(CATALOG, LeasedAfter(2), Alone(claims, Process(PLAIN_REPLY), 3), 1, true, LeasedAfter(2))
    ensures KeepsLease(CATALOG, LeasedAfter(2), claims[0], 2) && KeepsLease(CATALOG, LeasedAfter(2), claims[1], 2)
  {
    ids, claims := ExampleBatchExists(2);
    var b := Alone(claims, Process(PLAIN_REPLY), 3);
    FirstReplyIsRefused(CATALOG, LeasedAfter(2), ids, claims, b);
    FirstRefusalEndsTheBatch(CATALOG, LeasedAfter(2), ids, 1, 2, b);
  }

  lemma FirstReplyIsRefused(catalog: Catalog, leased: Db, ids: seq<Uuid>, claims: seq<ClaimedCase>, b: Batch)
    requires ExampleBatch(catalog, leased, 2, ids, claims) && b == Alone(claims, Process(PLAIN_REPLY), 3)
    ensures RefusedAt(catalog, leased, b, 0)
  {
    FreshClaimsNameTheirRun(catalog, leased, ids, claims, 1, 2, 0);
    FirstTurn(catalog, leased, b);
    AnswerWithoutMetricsShowsTheGap(leased.runs[1].key.scoringPolicyVersion);
  }

  lemma FirstTurn(catalog: Catalog, leased: Db, b: Batch)
    requires Sized(b) && b.claims != [] && b.others[0] == []
    ensures AtTurn(catalog, leased, b, 0) == leased
  {
    assert Turns(b, 0) + b.others[0] == [];
  }

  /** A refused first answer ends the batch with the ledger as claimed, and every claim keeps its lease. */
  lemma FirstRefusalEndsTheBatch(catalog: Catalog, leased: Db, ids: seq<Uuid>, firstToken: nat, expiresAt: nat, b: Batch)
    requires Sized(b) && Handed(catalog, leased, ids, b.claims, firstToken, expiresAt) && b.maxAttempts >= 1
    requires b.claims != [] && b.others[0] == [] && RefusedAt(catalog, leased, b, 0)
    ensures AnsweredUpTo(catalog, leased, b, 1, true, leased)
    ensures forall i | 0 <= i < |b.claims| :: KeepsLease(catalog, leased, b.claims[i], expiresAt)
  {
    FirstTurn(catalog, leased, b);
    TurnTakenExactly(catalog, leased, ids, firstToken, expiresAt, b, 0);
    forall i: nat | i < |b.claims| ensures KeepsLease(catalog, leased, b.claims[i], expiresAt) {
      KeptExactly(catalog, leased, [], ids, b.claims, firstToken, expiresAt, i);
    }
  }

  // ---------------------------------------------------------------- Sums that do not fit

  const LATENCY := Group(Latency, Scoring.SCORING_POLICY_V1)

  const SLOW_ANSWER := Scoring.AgentCaseResult(
    Scoring.ExecCompleted, Scoring.AgentCompleted, "yes", [], Some(MAX_INT64), None, None)

  /** A completion that passes both checks and whose latency alone fills the integer column. */
  ghost predicate Slow(result: TerminalCaseResult) {
    && result.state.Completed? && ValidTerminalResult(result) && WorkerAccepts(result)
    && result.actualEvidence == [] && result.safeFailureCode == "" && result.latency == Some(MAX_INT64)
    && StorableMetrics(result, Scoring.SCORING_POLICY_V1)
    && NumeratorIn(TerminalTable(result, Scoring.SCORING_POLICY_V1), LATENCY) == MAX_INT64
  }

  lemma {:induction false} NoValidMarkerNothingCited(markers: seq<Scoring.CitationMarker>)
    requires forall n | 0 <= n < |markers| :: !markers[n].valid
    ensures Scoring.CitedRecords(markers, []) == []
  {
    if markers != [] {
      NoValidMarkerNothingCited(markers[..|markers| - 1]);
    }
  }

  lemma NothingRetrievedNothingCited(answer: string)
    ensures Scoring.CitedRecords(Scoring.Markers(answer, 0), []) == []
  {
    Scoring.MarkersShape(answer, 0);
    NoValidMarkerNothingCited(Scoring.Markers(answer, 0));
  }

  /** The scored form of a slow answer. */
  lemma SlowResultExists() returns (result: TerminalCaseResult)
    ensures result == LedgerFinal.ScoredForm(1, 1, SLOW_ANSWER, ExpectAnswer, [], Scoring.V1_RATIONALES, "", "x")
    ensures Slow(result)
  {
    Scoring.V1RationalesAreNotBlank();
    assert !IsSpace("yes"[0]) && !IsSpace("x"[0]);
    result := LedgerFinal.ScoredForm(1, 1, SLOW_ANSWER, ExpectAnswer, [], Scoring.V1_RATIONALES, "", "x");
    SlowFormIsSlow(SLOW_ANSWER, Scoring.V1_RATIONALES, "", "x");
  }

  lemma SlowFormIsSlow(answer: Scoring.AgentCaseResult, why: Scoring.Rationales, grounding: string, failureCode: string)
    requires Scoring.AcceptableResult(1, 1, answer) && !Blank(failureCode) && Scoring.NoneBlank(why)
    requires answer.state.ExecCompleted? && answer.retrieved == []
    requires answer.latency == Some(MAX_INT64) && answer.inputTokens.None? && answer.outputTokens.None?
    ensures Slow(LedgerFinal.ScoredForm(1, 1, answer, ExpectAnswer, [], why, grounding, failureCode))
  {
    var actual := Scoring.MaterializedOf(1, 1, answer);
    LedgerFinal.ScoredResultIsValid(answer, 1, 1, ExpectAnswer, [], why, grounding, failureCode);
    NothingRetrievedNothingCited(answer.answer);
    SlowLatency(actual, why);
    SlowMetricsMakeItSlow(actual, Scoring.ScoreMetrics(ExpectAnswer, [], actual, why), grounding, failureCode);
  }

  lemma SlowMetricsMakeItSlow(actual: Scoring.MaterializedCase, metrics: seq<Metric>, grounding: string, failureCode: string)
    requires RequiredMetricSet(metrics) && ValidTerminalResult(LedgerFinal.ScoredResult(actual, metrics, grounding, failureCode))
    requires actual.state.ExecCompleted? && actual.latency == Some(MAX_INT64) && actual.retrieved == [] && actual.cited == []
    requires NumeratorIn(MetricTable(metrics, Scoring.SCORING_POLICY_V1), LATENCY) == MAX_INT64
    ensures Slow(LedgerFinal.ScoredResult(actual, metrics, grounding, failureCode))
  {
    ValidResultsPassTheWorker(LedgerFinal.ScoredResult(actual, metrics, grounding, failureCode));
  }

  lemma SlowLatency(actual: Scoring.MaterializedCase, why: Scoring.Rationales)
    requires actual.state.ExecCompleted? && actual.latency == Some(MAX_INT64) && actual.inputTokens.None? && actual.outputTokens.None?
    requires Scoring.NoneBlank(why)
    ensures NumeratorIn(MetricTable(Scoring.ScoreMetrics(ExpectAnswer, [], actual, why), Scoring.SCORING_POLICY_V1), LATENCY) == MAX_INT64
  {
    var metrics := Scoring.ScoreMetrics(ExpectAnswer, [], actual, why);
    Scoring.OutcomeMetricsTrail(ExpectAnswer, [], actual, why);
    Scoring.CompletedScoreInOrder(ExpectAnswer, [], actual, why);
    OrderedNamesDiffer(metrics);
    MetricTableLookup(metrics, Scoring.SCORING_POLICY_V1, 6);
  }

  lemma OrderedNamesDiffer(metrics: seq<Metric>)
    requires Scoring.TenInOrder(metrics)
    ensures DifferentNames(metrics)
  {
  }

  /** Two slow answers in a finished run are one too many. */
  lemma TwoSlowAnswersDoNotFit(catalog: Catalog, db: Db, r: Uuid, j: Uuid, k: Uuid)
    requires BeforeFinalize(catalog, db, r) && AllTerminal(db, r) && j in CasesOf(db, r) && k in CasesOf(db, r) && j != k
    requires db.runs[r].key.scoringPolicyVersion == Scoring.SCORING_POLICY_V1
    requires j in db.metrics && NumeratorIn(db.metrics[j], LATENCY) == MAX_INT64
    requires k in db.metrics && NumeratorIn(db.metrics[k], LATENCY) == MAX_INT64
    ensures !Fits(db, r)
  {
    var rows := RunMetrics(db, r);
    LedgerFinal.FinishedRunRows(catalog, db, r);
    forall c | c in rows ensures 0 <= NumeratorIn(rows[c], LATENCY) {
      LedgerFinal.RowDivides(rows[c], Scoring.SCORING_POLICY_V1, LATENCY);
    }
    SumAtLeastTwo(Numerators(rows, LATENCY), j, k);
    assert LATENCY in LedgerFinal.TenGroups(Scoring.SCORING_POLICY_V1);
  }

  // ---------------------------------------------------------------- The last answer is rolled back

  function SlowAnswers(claims: seq<ClaimedCase>, result: TerminalCaseResult): (events: seq<Event>)
    ensures |events| == |claims| && forall i | 0 <= i < |claims| :: Answers(events[i], claims[i])
  {
    seq(|claims|, i requires 0 <= i < |claims| => Answer(claims[i], Some(result), 1))
  }

  /** The example run after its first answers. */
  ghost function AfterSlowAnswers(catalog: Catalog, leased: Db, claims: seq<ClaimedCase>, result: TerminalCaseResult, count: nat): Db
    requires count <= |claims|
  {
    Exec(catalog, leased, SlowAnswers(claims, result)[..count])
  }

  /** A completed case and its metric rows, as a slow answer leaves them. */
  ghost predicate SettledSlowly(db: Db, c: Uuid, result: TerminalCaseResult) {
    && c in db.cases && TerminalCase(db.cases[c].state)
    && c in db.metrics && db.metrics[c] == TerminalTable(result, Scoring.SCORING_POLICY_V1)
  }

  lemma CompletionSettles(catalog: Catalog, db: Db, claim: ClaimedCase, result: TerminalCaseResult)
    requires Complete(catalog, db, claim, result).1 == Done && db.runs[claim.runID].key.scoringPolicyVersion == Scoring.SCORING_POLICY_V1
    ensures SettledSlowly(Complete(catalog, db, claim, result).0, claim.id, result)
  {
    FinalizeKeepsRows(WithTerminalCase(db, claim, result), claim.runID);
  }

  lemma RunKeepsPolicy(catalog: Catalog, leased: Db, ids: seq<Uuid>, claims: seq<ClaimedCase>, result: TerminalCaseResult, count: nat)
    requires ExampleBatch(catalog, leased, 3, ids, claims) && count <= 3
    ensures var db := AfterSlowAnswers(catalog, leased, claims, result, count);
            1 in db.runs && db.runs[1].key.scoringPolicyVersion == Scoring.SCORING_POLICY_V1
  {
    if count > 0 {
      var events := SlowAnswers(claims, result);
      RunKeepsPolicy(catalog, leased, ids, claims, result, count - 1);
      ExecOneMore(catalog, leased, events, count - 1);
      IdentitySurvives(catalog, AfterSlowAnswers(catalog, leased, claims, result, count - 1), events[count - 1]);
      assert SameIdentity(AfterSlowAnswers(catalog, leased, claims, result, count - 1), AfterSlowAnswers(catalog, leased, claims, result, count), 1);
    }
  }

  lemma AnswerBesideOpenCase(
    catalog: Catalog, db: Db, claim: ClaimedCase, other: ClaimedCase, result: TerminalCaseResult)
    requires HoldsLease(db, claim) && ClaimNamesItsRun(db, claim) && !Blank(claim.question) && Slow(result)
    requires HoldsLease(db, other) && other.id != claim.id && db.cases[other.id].runID == claim.runID
    requires db.runs[claim.runID].key.scoringPolicyVersion == Scoring.SCORING_POLICY_V1
    ensures Acceptable(catalog, db, claim, Some(result), 1)
  {
    var mid := WithTerminalCase(db, claim, result);
    assert other.id in CasesOf(mid, claim.runID) && !TerminalCase(mid.cases[other.id].state);
  }

  lemma TakenCompletionIsDone(catalog: Catalog, db: Db, claim: ClaimedCase, result: TerminalCaseResult)
    requires Inv(catalog, db) && WellFormed(claim) && Slow(result) && Acceptable(catalog, db, claim, Some(result), 1)
    requires db.runs[claim.runID].key.scoringPolicyVersion == Scoring.SCORING_POLICY_V1
    ensures SettledSlowly(Apply(catalog, db, Answer(claim, Some(result), 1)).0, claim.id, result)
  {
    AnswerTakenExactly(catalog, db, claim, Some(result), 1);
    AcceptedResultIsOffered(catalog, db, claim, result, 1);
    CompletionSettles(catalog, db, claim, result);
  }

  /** While another case is open, a slow answer is taken. */
  lemma EarlySlowAnswerIsTaken(catalog: Catalog, leased: Db, ids: seq<Uuid>, claims: seq<ClaimedCase>, result: TerminalCaseResult, i: nat)
    requires ExampleBatch(catalog, leased, 3, ids, claims) && Slow(result) && i < 2
    ensures SettledSlowly(AfterSlowAnswers(catalog, leased, claims, result, i + 1), claims[i].id, result)
  {
    var db, events := AfterSlowAnswers(catalog, leased, claims, result, i), SlowAnswers(claims, result);
    ClaimStillHeld(catalog, leased, ids, claims, result, i, i);
    FreshClaimsDiffer(catalog, leased, ids, claims, 1, 2);
    FreshClaimsAreWellFormed(catalog, leased, ids, claims, 1, 2, i);
    EveryHistoryKeepsInvariant(catalog, leased, events[..i]);
    ClaimStillHeld(catalog, leased, ids, claims, result, 2, i);
    RunKeepsPolicy(catalog, leased, ids, claims, result, i);
    AnswerBesideOpenCase(catalog, db, claims[i], claims[2], result);
    TakenCompletionIsDone(catalog, db, claims[i], result);
    ExecOneMore(catalog, leased, events, i);
  }

  lemma EarlierAnswersAreTimely(claims: seq<ClaimedCase>, events: seq<Event>, i: nat, count: nat, expiresAt: nat)
    requires |events| == |claims| && forall j | 0 <= j < |claims| :: Answers(events[j], claims[j])
    requires forall j, k | 0 <= j < k < |claims| :: claims[j].id != claims[k].id
    requires count <= i < |claims|
    ensures forall e | e in events[..count] :: Timely(e, claims[i], expiresAt)
  {
    forall e | e in events[..count] ensures Timely(e, claims[i], expiresAt) {
      var j :| 0 <= j < count && events[j] == e;
      assert Answers(e, claims[j]);
    }
  }

  /** Answers to earlier claims leave a later claim its lease and its row. */
  lemma ClaimStillHeld(
    catalog: Catalog, leased: Db, ids: seq<Uuid>, claims: seq<ClaimedCase>, result: TerminalCaseResult, i: nat, count: nat)
    requires ExampleBatch(catalog, leased, 3, ids, claims) && count <= i < 3
    ensures var db := AfterSlowAnswers(catalog, leased, claims, result, count);
            HoldsLease(db, claims[i]) && ClaimNamesItsRun(db, claims[i]) && db.cases[claims[i].id].runID == 1
  {
    var earlier := SlowAnswers(claims, result)[..count];
    FreshClaimsNameTheirRun(catalog, leased, ids, claims, 1, 2, i);
    FreshClaimsDiffer(catalog, leased, ids, claims, 1, 2);
    assert claims[i] == ClaimRecord(catalog, leased, ids[i], 1 + i, 2);
    assert CaseOk(catalog, leased, claims[i].id);
    EarlierAnswersAreTimely(claims, SlowAnswers(claims, result), i, count, 2);
    TimelyHistoryDisturbsNothing(catalog, leased, earlier, claims[i], 2);
    LeaseSurvivesExactly(catalog, leased, earlier, claims[i]);
    SurvivingClaimNamesItsRun(catalog, leased, earlier, claims[i]);
  }

  /** Three cases, two of them settled slowly: whatever settles the third, the sums do not fit. */
  lemma LastCaseDoesNotFit(catalog: Catalog, db: Db, mid: Db, j: Uuid, k: Uuid, last: Uuid, result: TerminalCaseResult)
    requires Inv(catalog, db) && db.cases.Keys == {j, k, last} && j != k && j != last && k != last
    requires db.cases[j].runID == db.cases[k].runID == db.cases[last].runID == 1
    requires 1 in db.runs && db.runs[1].key.scoringPolicyVersion == Scoring.SCORING_POLICY_V1
    requires Slow(result) && SettledSlowly(db, j, result) && SettledSlowly(db, k, result)
    requires CaseReplaced(db, last, mid) && CaseOk(catalog, mid, last) && TerminalCase(mid.cases[last].state)
    ensures 1 in mid.runs && !Fits(mid, 1)
  {
    ReplacedBeforeFinalize(catalog, db, last, mid);
    LastCaseSettlesAll(db, mid, j, k, last, result);
    TwoSlowAnswersDoNotFit(catalog, mid, 1, j, k);
  }

  lemma LastCaseSettlesAll(db: Db, mid: Db, j: Uuid, k: Uuid, last: Uuid, result: TerminalCaseResult)
    requires db.cases.Keys == {j, k, last} && j != last && k != last
    requires db.cases[j].runID == db.cases[k].runID == db.cases[last].runID == 1
    requires SettledSlowly(db, j, result) && SettledSlowly(db, k, result)
    requires CaseReplaced(db, last, mid) && TerminalCase(mid.cases[last].state)
    ensures AllTerminal(mid, 1) && j in CasesOf(mid, 1) && k in CasesOf(mid, 1)
    ensures j in mid.metrics && k in mid.metrics && mid.metrics[j] == db.metrics[j] && mid.metrics[k] == db.metrics[k]
  {
  }

  /** Two of three cases are settled slowly and the third is leased under the claim. */
  ghost predicate OneLeft(catalog: Catalog, db: Db, claim: ClaimedCase, j: Uuid, k: Uuid, result: TerminalCaseResult) {
    && Inv(catalog, db) && db.cases.Keys == {j, k, claim.id} && j != k && j != claim.id && k != claim.id
    && db.cases[j].runID == db.cases[k].runID == db.cases[claim.id].runID == 1
    && 1 in db.runs && db.runs[1].key.scoringPolicyVersion == Scoring.SCORING_POLICY_V1
    && Slow(result) && SettledSlowly(db, j, result) && SettledSlowly(db, k, result)
    && HoldsLease(db, claim) && ClaimNamesItsRun(db, claim) && ValidClaim(claim)
  }

  lemma LastCompletionIsRejected(catalog: Catalog, db: Db, claim: ClaimedCase, j: Uuid, k: Uuid, result: TerminalCaseResult)
    requires OneLeft(catalog, db, claim, j, k, result)
    ensures StorableResult(catalog, db, claim, result) && Complete(catalog, db, claim, result) == (db, Rejected)
  {
    assert CaseOk(catalog, db, claim.id);
    CompletedCaseOk(catalog, db, claim, result);
    LastCaseDoesNotFit(catalog, db, WithTerminalCase(db, claim, result), j, k, claim.id, result);
    CompletionTakenExactly(catalog, db, claim, result);
  }

  lemma LastReleaseIsRejected(catalog: Catalog, db: Db, claim: ClaimedCase, j: Uuid, k: Uuid, result: TerminalCaseResult)
    requires OneLeft(catalog, db, claim, j, k, result)
    ensures ReleaseForRetry(db, claim, FailureCode(None), 1) == (db, Rejected)
  {
    assert CaseOk(catalog, db, claim.id);
    ExhaustedCaseOk(catalog, db, claim, FailureCode(None));
    LastCaseDoesNotFit(catalog, db, WithExhaustedCase(db, claim, FailureCode(None)), j, k, claim.id, result);
    CodesAreNotBlank(None);
    ReleaseRejectedOnlyOnOverflow(catalog, db, claim, FailureCode(None), 1);
  }

  lemma SettledStays(catalog: Catalog, db: Db, e: Event, other: ClaimedCase, c: Uuid, result: TerminalCaseResult)
    requires SettledSlowly(db, c, result) && Answers(e, other) && other.id != c
    ensures SettledSlowly(Apply(catalog, db, e).0, c, result)
  {
    EveryCallMovesCases(catalog, db, e, c);
  }

  lemma LaterAnswerKeepsSettled(
    catalog: Catalog, leased: Db, claims: seq<ClaimedCase>, result: TerminalCaseResult, i: nat, count: nat)
    requires i < count < |claims| && claims[i].id != claims[count].id
    requires SettledSlowly(AfterSlowAnswers(catalog, leased, claims, result, count), claims[i].id, result)
    ensures SettledSlowly(AfterSlowAnswers(catalog, leased, claims, result, count + 1), claims[i].id, result)
  {
    var events := SlowAnswers(claims, result);
    ExecOneMore(catalog, leased, events, count);
    assert Answers(events[count], claims[count]);
    SettledStays(catalog, AfterSlowAnswers(catalog, leased, claims, result, count), events[count], claims[count], claims[i].id, result);
  }

  /** The first two slow answers are taken and stay. */
  lemma {:induction false} SlowAnswersStay(
    catalog: Catalog, leased: Db, ids: seq<Uuid>, claims: seq<ClaimedCase>, result: TerminalCaseResult, i: nat, count: nat)
    requires ExampleBatch(catalog, leased, 3, ids, claims) && Slow(result) && i < 2 && i < count <= 3
    ensures SettledSlowly(AfterSlowAnswers(catalog, leased, claims, result, count), claims[i].id, result)
  {
    if count == i + 1 {
      EarlySlowAnswerIsTaken(catalog, leased, ids, claims, result, i);
    } else {
      SlowAnswersStay(catalog, leased, ids, claims, result, i, count - 1);
      FreshClaimsDiffer(catalog, leased, ids, claims, 1, 2);
      LaterAnswerKeepsSettled(catalog, leased, claims, result, i, count - 1);
    }
  }

  lemma AnswerAddsNoCases(catalog: Catalog, before: Db, e: Event, claim: ClaimedCase)
    requires Answers(e, claim)
    ensures var after := Apply(catalog, before, e).0;
            after.cases.Keys == before.cases.Keys && forall c | c in before.cases :: after.cases[c].runID == before.cases[c].runID
  {
    OtherCallsAddNoCases(catalog, before, e);
    forall c | c in before.cases ensures Apply(catalog, before, e).0.cases[c].runID == before.cases[c].runID {
      EveryCallMovesCases(catalog, before, e, c);
    }
  }

  lemma AnswersAddNoCases(catalog: Catalog, leased: Db, ids: seq<Uuid>, claims: seq<ClaimedCase>, result: TerminalCaseResult, count: nat)
    requires ExampleBatch(catalog, leased, 3, ids, claims) && count <= 3
    ensures OneRun(AfterSlowAnswers(catalog, leased, claims, result, count))
  {
    if count > 0 {
      var before, events := AfterSlowAnswers(catalog, leased, claims, result, count - 1), SlowAnswers(claims, result);
      AnswersAddNoCases(catalog, leased, ids, claims, result, count - 1);
      ExecOneMore(catalog, leased, events, count - 1);
      assert Answers(events[count - 1], claims[count - 1]);
      AnswerAddsNoCases(catalog, before, events[count - 1], claims[count - 1]);
    }
  }

  /** The three cases of the one run. */
  ghost predicate OneRun(db: Db) {
    db.cases.Keys == {1, 2, 3} && forall c | c in db.cases :: db.cases[c].runID == 1
  }

  lemma ThreeClaimsAreTheCases(catalog: Catalog, leased: Db, ids: seq<Uuid>, claims: seq<ClaimedCase>)
    requires ExampleBatch(catalog, leased, 3, ids, claims)
    ensures {claims[0].id, claims[1].id, claims[2].id} == {1, 2, 3}
    ensures claims[0].id != claims[1].id && claims[0].id != claims[2].id && claims[1].id != claims[2].id
  {
    FreshClaimsDiffer(catalog, leased, ids, claims, 1, 2);
    ThreeOfThree(claims[0].id, claims[1].id, claims[2].id);
  }

  lemma ThreeOfThree(i: Uuid, j: Uuid, k: Uuid)
    requires i in {1, 2, 3} && j in {1, 2, 3} && k in {1, 2, 3} && i != j && i != k && j != k
    ensures {i, j, k} == {1, 2, 3}
  {
  }

  /**
   A ledger reached from empty tables whose last open case can be neither completed nor given up: both
   answers are valid, both are rejected and rolled back, because two earlier latencies fill the column.
   */
  lemma LastAnswerIsRolledBack() returns (history: seq<Event>, claim: ClaimedCase, result: TerminalCaseResult)
    ensures result.latency == Some(MAX_INT64) && ValidTerminalResult(result)
    ensures var db := Exec(CATALOG, EMPTY, history);
            && HoldsLease(db, claim) && ValidClaim(claim) && StorableResult(CATALOG, db, claim, result)
            && Complete(CATALOG, db, claim, result) == (db, Rejected)
            && ReleaseForRetry(db, claim, FailureCode(None), 1) == (db, Rejected)
  {
    var ids, claims := ExampleBatchExists(3);
    result := SlowResultExists();
    claim := claims[2];
    var events := SlowAnswers(claims, result);
    history := Opening(3) + events[..2];
    ExecSplit(CATALOG, EMPTY, Opening(3), events[..2]);
    LastAnswerOfThree(CATALOG, LeasedAfter(3), ids, claims, result);
  }

  lemma LastAnswerOfThree(catalog: Catalog, leased: Db, ids: seq<Uuid>, claims: seq<ClaimedCase>, result: TerminalCaseResult)
    requires ExampleBatch(catalog, leased, 3, ids, claims) && Slow(result)
    ensures var db := AfterSlowAnswers(catalog, leased, claims, result, 2);
            && HoldsLease(db, claims[2]) && ValidClaim(claims[2]) && StorableResult(catalog, db, claims[2], result)
            && Complete(catalog, db, claims[2], result) == (db, Rejected)
            && ReleaseForRetry(db, claims[2], FailureCode(None), 1) == (db, Rejected)
  {
    var db := AfterSlowAnswers(catalog, leased, claims, result, 2);
    EveryHistoryKeepsInvariant(catalog, leased, SlowAnswers(claims, result)[..2]);
    ClaimStillHeld(catalog, leased, ids, claims, result, 2, 2);
    FreshClaimsAreWellFormed(catalog, leased, ids, claims, 1, 2, 2);
    RunKeepsPolicy(catalog, leased, ids, claims, result, 2);
    AnswersAddNoCases(catalog, leased, ids, claims, result, 2);
    ThreeClaimsAreTheCases(catalog, leased, ids, claims);
    SlowAnswersStay(catalog, leased, ids, claims, result, 0, 2);
    SlowAnswersStay(catalog, leased, ids, claims, result, 1, 2);
    LastCompletionIsRejected(catalog, db, claims[2], claims[0].id, claims[1].id, result);
    LastReleaseIsRejected(catalog, db, claims[2], claims[0].id, claims[1].id, result);
  }
}
