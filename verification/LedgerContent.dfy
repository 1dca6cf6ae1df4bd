/** What every stored row says, after any history of calls: results, evidence and expected evidence stay consistent. */
module LedgerContent {
  import opened Text
  import opened Evaluation
  import opened Ledger
  import opened LedgerInvariant
  import opened LedgerHistory
  import opened LedgerOutcomes
  import opened RunIdentities

  // ---------------------------------------------------------------- Rows

  /** An open case has no result; a completed one has an answer; a failure code stands exactly on failures. */
  predicate ResultOk(row: CaseRow) {
    && (OpenCase(row) ==> row.result == NO_RESULT)
    && (row.state.Completed? ==> row.result.answer.Some? && !Blank(row.result.answer.value))
    && (TerminalCase(row.state) ==>
          && (TerminalFailure(row.state) <==> row.result.failureCode.Some?)
          && (row.result.failureCode.Some? ==> !Blank(row.result.failureCode.value)))
    && ValidMeasurement(row.result.latency) && ValidMeasurement(row.result.inputTokens) && ValidMeasurement(row.result.outputTokens)
  }

  /** The case is one of the run's dataset revision, with its expected outcome. */
  predicate CaseMatches(catalog: Catalog, key: ComparisonKey, row: CaseRow) {
    && row.datasetCaseID in catalog.datasetCases
    && var found := catalog.datasetCases[row.datasetCaseID];
    && found.corpusID == key.corpusID && found.revisionID == key.datasetRevisionID && found.expectedOutcome == row.expectedOutcome
    && (row.expectedOutcome == ExpectAnswer || row.expectedOutcome == ExpectAbstain) && 1 <= row.position <= MAX_INT32
  }

  /** The items of a kind among the first n. */
  ghost function OfKind(evidence: seq<ActualEvidence>, n: nat, kind: EvidenceKind): set<nat>
    requires n <= |evidence|
  {
    set m: nat | m < n && evidence[m].kind == kind
  }

  /** A piece of evidence lies in the run's snapshot; only cited items name a marker. */
  predicate ItemOk(catalog: Catalog, key: ComparisonKey, item: ActualEvidence) {
    var p := item.provenance;
    && ((item.kind == Retrieved && item.markerPosition == 0) || (item.kind == Cited && 1 <= item.markerPosition <= MAX_INT32))
    && p.snapshotID == key.snapshotID && p.corpusID == key.corpusID && 0 <= p.startOffset < p.endOffset <= MAX_INT32
    && EvidenceUnit(key.snapshotID, key.corpusID, p.sourceID, p.sourceRevisionID, p.documentID, p.unitID,
                    p.canonicalLocator, p.contentSHA256) in catalog.units
  }

  ghost predicate EvidenceOk(catalog: Catalog, key: ComparisonKey, evidence: seq<ActualEvidence>) {
    forall n: nat | n < |evidence| ::
      ItemOk(catalog, key, evidence[n]) && evidence[n].position == |OfKind(evidence, n, evidence[n].kind)| + 1
  }

  ghost predicate ContentOk(catalog: Catalog, db: Db, c: Uuid)
    requires c in db.cases
  {
    var row := db.cases[c];
    && row.runID in db.runs && ResultOk(row) && CaseMatches(catalog, db.runs[row.runID].key, row)
    && (c in db.evidence ==> EvidenceOk(catalog, db.runs[row.runID].key, db.evidence[c]))
  }

  /** Expected evidence belongs to a case and lies in the snapshot of its run. */
  ghost predicate ExpectedOk(catalog: Catalog, db: Db, id: Uuid)
    requires id in db.expected
  {
    var e := db.expected[id];
    && e.id == id && e.runCaseID in db.cases && db.cases[e.runCaseID].runID in db.runs
    && ExpectedUnit(db.runs[db.cases[e.runCaseID].runID].key, e) in catalog.units
    && 1 <= e.ordinal <= MAX_INT32
  }

  ghost predicate OrdinalsDiffer(db: Db, id: Uuid, other: Uuid)
    requires id in db.expected && other in db.expected
  {
    db.expected[id].runCaseID == db.expected[other].runCaseID && db.expected[id].ordinal == db.expected[other].ordinal ==> id == other
  }

  ghost predicate Content(catalog: Catalog, db: Db) {
    && (forall c {:trigger ContentOk(catalog, db, c)} | c in db.cases :: ContentOk(catalog, db, c))
    && (forall id {:trigger ExpectedOk(catalog, db, id)} | id in db.expected :: ExpectedOk(catalog, db, id))
    && (forall id, other {:trigger OrdinalsDiffer(db, id, other)} | id in db.expected && other in db.expected :: OrdinalsDiffer(db, id, other))
  }

  // ---------------------------------------------------------------- Frames

  /** Runs and cases only gain rows, and keep what content reads of them; expected evidence stays. */
  ghost predicate ContentFrame(db: Db, after: Db) {
    && (forall r | r in db.runs :: r in after.runs && after.runs[r].key == db.runs[r].key)
    && (forall c | c in db.cases :: c in after.cases && after.cases[c].runID == db.cases[c].runID)
  }

  lemma ExpectedStays(catalog: Catalog, db: Db, after: Db, id: Uuid)
    requires ContentFrame(db, after) && id in db.expected && ExpectedOk(catalog, db, id)
    requires id in after.expected && after.expected[id] == db.expected[id]
    ensures ExpectedOk(catalog, after, id)
  {
  }

  /** A call that adds neither cases nor expected evidence keeps the content if it keeps that of each case. */
  lemma RowsKeepContent(catalog: Catalog, db: Db, after: Db)
    requires Content(catalog, db) && ContentFrame(db, after) && after.expected == db.expected && after.cases.Keys == db.cases.Keys
    requires forall c {:trigger ContentOk(catalog, after, c)} | c in after.cases :: ContentOk(catalog, after, c)
    ensures Content(catalog, after)
  {
    forall id | id in after.expected ensures ExpectedOk(catalog, after, id) {
      assert ExpectedOk(catalog, db, id);
      ExpectedStays(catalog, db, after, id);
    }
    forall id, other | id in after.expected && other in after.expected ensures OrdinalsDiffer(after, id, other) {
      assert OrdinalsDiffer(db, id, other);
    }
  }

  lemma RowStays(catalog: Catalog, db: Db, after: Db, c: Uuid)
    requires c in db.cases && ContentOk(catalog, db, c) && ContentFrame(db, after)
    requires after.cases[c] == db.cases[c] && ChildrenSame(db, after, c)
    ensures ContentOk(catalog, after, c)
  {
  }

  // ---------------------------------------------------------------- Answers

  lemma {:induction false} KindCountIsCardinality(evidence: seq<ActualEvidence>, n: nat, kind: EvidenceKind)
    requires n <= |evidence|
    ensures KindCount(evidence[..n], kind) == |OfKind(evidence, n, kind)|
  {
    if n > 0 {
      KindCountIsCardinality(evidence, n - 1, kind);
      OneMoreOfKind(evidence, n - 1, kind);
      assert evidence[..n][..n - 1] == evidence[..n - 1];
    }
  }

  lemma OneMoreOfKind(evidence: seq<ActualEvidence>, n: nat, kind: EvidenceKind)
    requires n < |evidence|
    ensures |OfKind(evidence, n + 1, kind)| == |OfKind(evidence, n, kind)| + if evidence[n].kind == kind then 1 else 0
  {
    assert OfKind(evidence, n + 1, kind) == OfKind(evidence, n, kind) + if evidence[n].kind == kind then {n} else {};
  }

  lemma StorableEvidenceIsOk(catalog: Catalog, claim: ClaimedCase, key: ComparisonKey, evidence: seq<ActualEvidence>)
    requires StorableEvidence(catalog, claim, evidence) && claim.corpusID == key.corpusID
    requires evidence != [] ==> claim.snapshotID == key.snapshotID
    ensures EvidenceOk(catalog, key, evidence)
  {
    forall n: nat | n < |evidence|
      ensures ItemOk(catalog, key, evidence[n]) && evidence[n].position == |OfKind(evidence, n, evidence[n].kind)| + 1
    {
      KindCountIsCardinality(evidence, n, evidence[n].kind);
    }
  }

  lemma HeldResultIsOk(before: CaseRow, row: CaseRow, result: TerminalCaseResult)
    requires HoldsResult(before, row, result) && ValidTerminalResult(result)
    requires !TerminalFailure(result.state) ==> result.safeFailureCode == ""
    ensures ResultOk(row)
  {
  }

  lemma CompletionKeepsContent(catalog: Catalog, db: Db, claim: ClaimedCase, result: TerminalCaseResult)
    requires Content(catalog, db) && Complete(catalog, db, claim, result).1 == Done
    ensures Content(catalog, Complete(catalog, db, claim, result).0)
  {
    var after := Complete(catalog, db, claim, result).0;
    CompletionStoresResult(catalog, db, claim, result);
    CompletionDone(catalog, db, claim, result);
    CompleteKeepsRuns(catalog, db, claim, result);
    SameRunsFrame(db, after);
    forall c | c in after.cases ensures ContentOk(catalog, after, c) {
      assert ContentOk(catalog, db, c);
      if c == claim.id {
        HeldResultIsOk(db.cases[c], after.cases[c], result);
        StorableEvidenceIsOk(catalog, claim, db.runs[claim.runID].key, result.actualEvidence);
      } else {
        RowStays(catalog, db, after, c);
      }
    }
    RowsKeepContent(catalog, db, after);
  }

  lemma SameRunsFrame(db: Db, after: Db)
    requires SameRuns(db, after) && after.cases.Keys == db.cases.Keys
    requires forall c | c in db.cases :: after.cases[c].runID == db.cases[c].runID
    ensures ContentFrame(db, after)
  {
    forall r | r in db.runs ensures r in after.runs && after.runs[r].key == db.runs[r].key { assert SameIdentity(db, after, r); }
  }

  lemma ReleaseKeepsContent(catalog: Catalog, db: Db, claim: ClaimedCase, failureCode: string, maxAttempts: int)
    requires Inv(catalog, db) && Content(catalog, db) && ReleaseForRetry(db, claim, failureCode, maxAttempts).1 == Done
    ensures Content(catalog, ReleaseForRetry(db, claim, failureCode, maxAttempts).0)
  {
    ReleaseStoresOutcome(catalog, db, claim, failureCode, maxAttempts);
    ReleaseKeepsIdentities(catalog, db, claim, failureCode, maxAttempts);
    ReleaseKeepsNoEvidence(db, claim, failureCode, maxAttempts);
    LeasedHasNoResult(catalog, db, claim);
    ReleasedKeepContent(catalog, db, ReleaseForRetry(db, claim, failureCode, maxAttempts).0, claim, failureCode, maxAttempts);
  }

  lemma ReleaseKeepsIdentities(catalog: Catalog, db: Db, claim: ClaimedCase, failureCode: string, maxAttempts: int)
    ensures SameRuns(db, ReleaseForRetry(db, claim, failureCode, maxAttempts).0)
  {
    ReleaseKeepsRuns(catalog, db, ReleaseEvent(claim, failureCode, maxAttempts));
  }

  lemma LeasedHasNoResult(catalog: Catalog, db: Db, claim: ClaimedCase)
    requires Inv(catalog, db) && HoldsLease(db, claim)
    ensures db.cases[claim.id].result == NO_RESULT
  {
    assert CaseOk(catalog, db, claim.id);
  }

  lemma ReleasedKeepContent(catalog: Catalog, db: Db, after: Db, claim: ClaimedCase, failureCode: string, maxAttempts: int)
    requires Content(catalog, db) && ReleaseStores(db, after, claim, failureCode, maxAttempts) && SameRuns(db, after)
    requires after.evidence == db.evidence && db.cases[claim.id].result == NO_RESULT && !Blank(failureCode)
    ensures Content(catalog, after)
  {
    SameRunsFrame(db, after);
    ReleasedRowIsOk(db, after, claim, failureCode, maxAttempts);
    forall c | c in after.cases ensures ContentOk(catalog, after, c) {
      assert ContentOk(catalog, db, c);
      if c != claim.id {
        RowStays(catalog, db, after, c);
      }
    }
    RowsKeepContent(catalog, db, after);
  }

  lemma ReleasedRowIsOk(db: Db, after: Db, claim: ClaimedCase, failureCode: string, maxAttempts: int)
    requires ReleaseStores(db, after, claim, failureCode, maxAttempts) && !Blank(failureCode)
    requires db.cases[claim.id].result == NO_RESULT
    ensures ResultOk(after.cases[claim.id])
  {
  }

  /** A release writes no evidence. */
  lemma ReleaseKeepsNoEvidence(db: Db, claim: ClaimedCase, failureCode: string, maxAttempts: int)
    requires ReleaseForRetry(db, claim, failureCode, maxAttempts).1 == Done
    ensures HoldsLease(db, claim) && !Blank(failureCode)
    ensures ReleaseForRetry(db, claim, failureCode, maxAttempts).0.evidence == db.evidence
  {
    if db.cases[claim.id].attempts >= maxAttempts {
      FinalizeKeepsRows(WithExhaustedCase(db, claim, failureCode), claim.runID);
    } else {
      FinalizeKeepsRows(db.(cases := db.cases[claim.id := ReleasedRow(db.cases[claim.id])]), db.cases[claim.id].runID);
    }
  }

  // ---------------------------------------------------------------- Claims and new runs

  lemma ClaimKeepsContent(catalog: Catalog, db: Db, e: Event)
    requires Content(catalog, db) && e.ClaimEvent? && Apply(catalog, db, e).1 == Done
    ensures Content(catalog, Apply(catalog, db, e).0)
  {
    var after := Apply(catalog, db, e).0;
    ghost var expiresAt := e.now + e.period;
    ClaimTakesOldest(catalog, db, e.workerID, e.now, e.period, expiresAt, e.batch, e.locked);
    ClaimKeepsRuns(catalog, db, e);
    var ids :| OldestFirst(db, ids, TakeableCases(catalog, db, e.now, e.locked), e.batch) && Claimed(db, ids, e.workerID, expiresAt, after);
    LeasedKeepContent(catalog, db, ids, e.workerID, expiresAt, after, TakeableCases(catalog, db, e.now, e.locked));
  }

  lemma LeasedKeepContent(
    catalog: Catalog, db: Db, ids: seq<Uuid>, workerID: string, expiresAt: nat, after: Db, takeable: set<Uuid>)
    requires Content(catalog, db) && Claimed(db, ids, workerID, expiresAt, after) && SameRuns(db, after)
    requires forall c | c in ids :: c in takeable
    requires forall c | c in takeable :: c in db.cases && OpenCase(db.cases[c])
    ensures Content(catalog, after)
  {
    forall c | c in db.cases ensures after.cases[c].runID == db.cases[c].runID {
      LeasedRow(db, ids, workerID, expiresAt, after, c);
    }
    SameRunsFrame(db, after);
    forall c | c in after.cases ensures ContentOk(catalog, after, c) {
      assert ContentOk(catalog, db, c);
      LeasedRow(db, ids, workerID, expiresAt, after, c);
    }
    RowsKeepContent(catalog, db, after);
  }

  /** A claim leaves a row alone or changes its state, attempts and lease. */
  lemma LeasedRow(db: Db, ids: seq<Uuid>, workerID: string, expiresAt: nat, after: Db, c: Uuid)
    requires Claimed(db, ids, workerID, expiresAt, after) && c in db.cases
    ensures after.cases[c] == db.cases[c] || (c in ids && after.cases[c].state.Leased?)
    ensures after.cases[c] == db.cases[c].(state := after.cases[c].state, attempts := after.cases[c].attempts, lease := after.cases[c].lease)
  {
    if c in ids {
      var i :| 0 <= i < |ids| && ids[i] == c;
    }
  }

  lemma CreationDone(catalog: Catalog, db: Db, request: CreateRunRequest, now: nat)
    requires CreateRun(catalog, db, request, now).1 == Done
    ensures ValidRequest(request) && StorableRequest(catalog, db, request)
    ensures RunStored(db, CreateRun(catalog, db, request, now).0, request, now)
  {
    CreateRunStoresRequest(catalog, db, request, now);
  }

  lemma NewCaseContent(catalog: Catalog, db: Db, request: CreateRunRequest, now: nat, after: Db, c: Uuid)
    requires ValidRequest(request) && StorableRequest(catalog, db, request) && RunStored(db, after, request, now)
    requires db.evidence.Keys <= db.cases.Keys && c in after.cases && c !in db.cases
    ensures ContentOk(catalog, after, c)
  {
    var item :| item in request.cases && item.id == c;
    var i :| 0 <= i < |request.cases| && request.cases[i] == item;
    assert ValidRunCase(request.cases[i]) && CaseFits(catalog, request.identity.key, request.cases[i]);
    assert NewRow(after.cases[c], request.identity, item, now);
  }

  lemma NewExpectedContent(catalog: Catalog, db: Db, request: CreateRunRequest, now: nat, after: Db, id: Uuid)
    requires ValidRequest(request) && StorableRequest(catalog, db, request) && RunStored(db, after, request, now)
    requires id in after.expected && id !in db.expected
    ensures ExpectedOk(catalog, after, id) && after.expected[id].runCaseID !in db.cases
    ensures after.expected[id] in request.evidence
  {
    var e :| e in request.evidence && e.id == id;
    var i :| 0 <= i < |request.evidence| && request.evidence[i] == e;
    assert ValidExpectedEvidence(request.evidence[i]) && ExpectedFits(catalog, request.identity.key, request.evidence[i]);
    var c :| c in request.cases && c.id == e.runCaseID;
    var k :| 0 <= k < |request.cases| && request.cases[k] == c;
    assert NewRow(after.cases[c.id], request.identity, c, now) && request.cases[k].id !in db.cases;
  }

  lemma OldAndNewDiffer(catalog: Catalog, db: Db, request: CreateRunRequest, now: nat, after: Db, stored: Uuid, id: Uuid)
    requires Content(catalog, db) && ValidRequest(request) && StorableRequest(catalog, db, request) && RunStored(db, after, request, now)
    requires stored in db.expected && id in after.expected && id !in db.expected
    ensures after.expected[stored].runCaseID != after.expected[id].runCaseID
  {
    assert ExpectedOk(catalog, db, stored);
    NewExpectedContent(catalog, db, request, now, after, id);
  }

  lemma NewOrdinalsDiffer(catalog: Catalog, db: Db, request: CreateRunRequest, now: nat, after: Db, id: Uuid, other: Uuid)
    requires ValidRequest(request) && StorableRequest(catalog, db, request) && RunStored(db, after, request, now)
    requires id in after.expected && other in after.expected && id !in db.expected && other !in db.expected
    ensures OrdinalsDiffer(after, id, other)
  {
    NewExpectedContent(catalog, db, request, now, after, id);
    NewExpectedContent(catalog, db, request, now, after, other);
    if after.expected[id].runCaseID == after.expected[other].runCaseID && after.expected[id].ordinal == after.expected[other].ordinal {
      RequestedOrdinalsDiffer(request, after.expected[id], after.expected[other]);
    }
  }

  lemma RequestedOrdinalsDiffer(request: CreateRunRequest, e: ExpectedEvidence, f: ExpectedEvidence)
    requires forall i, j | 0 <= i < j < |request.evidence| ::
               (request.evidence[i].runCaseID, request.evidence[i].ordinal) != (request.evidence[j].runCaseID, request.evidence[j].ordinal)
    requires e in request.evidence && f in request.evidence && e.runCaseID == f.runCaseID && e.ordinal == f.ordinal
    ensures e == f
  {
    var i :| 0 <= i < |request.evidence| && request.evidence[i] == e;
    var j :| 0 <= j < |request.evidence| && request.evidence[j] == f;
    assert (request.evidence[i].runCaseID, request.evidence[i].ordinal) == (request.evidence[j].runCaseID, request.evidence[j].ordinal);
  }

  lemma CreateRunKeepsContent(catalog: Catalog, db: Db, request: CreateRunRequest, now: nat)
    requires TablesOk(db) && Content(catalog, db) && CreateRun(catalog, db, request, now).1 == Done
    ensures Content(catalog, CreateRun(catalog, db, request, now).0)
  {
    var after := CreateRun(catalog, db, request, now).0;
    CreationDone(catalog, db, request, now);
    forall c | c in after.cases ensures ContentOk(catalog, after, c) {
      if c in db.cases {
        assert ContentOk(catalog, db, c);
      } else {
        NewCaseContent(catalog, db, request, now, after, c);
      }
    }
    forall id | id in after.expected ensures ExpectedOk(catalog, after, id) {
      if id in db.expected {
        assert ExpectedOk(catalog, db, id);
        ExpectedStays(catalog, db, after, id);
      } else {
        NewExpectedContent(catalog, db, request, now, after, id);
      }
    }
    forall id, other | id in after.expected && other in after.expected ensures OrdinalsDiffer(after, id, other) {
      if id in db.expected && other in db.expected {
        assert OrdinalsDiffer(db, id, other);
      } else if id in db.expected {
        OldAndNewDiffer(catalog, db, request, now, after, id, other);
      } else if other in db.expected {
        OldAndNewDiffer(catalog, db, request, now, after, other, id);
      } else {
        NewOrdinalsDiffer(catalog, db, request, now, after, id, other);
      }
    }
  }

  // ---------------------------------------------------------------- Histories

  lemma CallKeepsContent(catalog: Catalog, db: Db, e: Event)
    requires Inv(catalog, db) && Content(catalog, db)
    ensures Content(catalog, Apply(catalog, db, e).0)
  {
    if Apply(catalog, db, e).1 == Done {
      match e
      case CreateRunEvent(request, now) => CreateRunKeepsContent(catalog, db, request, now);
      case ClaimEvent(_, _, _, _, _) => ClaimKeepsContent(catalog, db, e);
      case CompleteEvent(claim, result) => CompletionKeepsContent(catalog, db, claim, result);
      case ReleaseEvent(claim, failureCode, maxAttempts) => ReleaseKeepsContent(catalog, db, claim, failureCode, maxAttempts);
    } else {
      RefusedChangesNothing(catalog, db, e);
    }
  }

  lemma RefusedChangesNothing(catalog: Catalog, db: Db, e: Event)
    requires Apply(catalog, db, e).1 != Done
    ensures Apply(catalog, db, e).0 == db
  {
  }

  /**
   After any history: every case is one of its run's dataset revision; completed cases have an answer, failures
   and only they a code; evidence is numbered per kind and lies in the run's snapshot, as expected evidence does,
   whose ordinals do not repeat within a case.
   */
  lemma {:induction false} EveryHistoryKeepsContent(catalog: Catalog, history: seq<Event>)
    ensures Content(catalog, Exec(catalog, EMPTY, history))
  {
    if history != [] {
      var earlier := history[..|history| - 1];
      EveryHistoryKeepsContent(catalog, earlier);
      InitialInvariant(catalog);
      EveryHistoryKeepsInvariant(catalog, EMPTY, earlier);
      CallKeepsContent(catalog, Exec(catalog, EMPTY, earlier), history[|history| - 1]);
    }
  }
}
