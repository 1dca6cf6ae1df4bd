/** What every repository transaction keeps true of the ledger tables. */
module LedgerInvariant {
  import opened Text
  import opened Evaluation
  import opened Ledger

  /** A stored metric row: arithmetic exactly when scored, under the run's scoring policy. */
  predicate RowOk(row: MetricRow, policy: string) {
    && row.scorerVersion == policy
    && (match row.state
        case Scored =>
          && row.value.Some? && row.numerator.Some? && row.denominator.Some?
          && row.numerator.value >= 0 && row.denominator.value > 0
        case NotApplicable | NotScored | NeedsHumanReview =>
          row.value.None? && row.numerator.None? && row.denominator.None?
        case OtherMetricState(_) => false)
  }

  /** Exactly the ten components, all of them withheld on a failed or cancelled case. */
  predicate CompleteLedger(rows: map<MetricName, MetricRow>, state: CaseState, policy: string) {
    && rows.Keys == TerminalMetricNames
    && forall name | name in rows :: RowOk(rows[name], policy) && (TerminalFailure(state) ==> rows[name].state == NotScored)
  }

  ghost predicate CaseOk(catalog: Catalog, db: Db, c: Uuid)
    requires c in db.cases
  {
    var row := db.cases[c];
    && row.runID in db.runs
    && var run := db.runs[row.runID];
    && row.corpusID == run.key.corpusID
    && row.datasetCaseID != NIL && row.datasetCaseID in catalog.datasetCases
    && (run.state.Queued? ==> row.state.Pending? && row.attempts == 0)
    && (row.lease.Some? <==> row.state.Leased?)
    && (OpenCase(row) ==> c !in db.metrics && c !in db.evidence && row.result == NO_RESULT)
    && (row.state.Leased? ==> run.state.Running? && row.attempts >= 1 && 1 <= row.lease.value.token < db.nextToken)
    && (!OpenCase(row) ==>
          && TerminalCase(row.state) && row.attempts >= 1
          && c in db.metrics && CompleteLedger(db.metrics[c], row.state, run.key.scoringPolicyVersion))
  }

  predicate KeyOk(key: ComparisonKey) {
    && key.datasetRevisionID != NIL && key.corpusID != NIL && key.snapshotID != NIL
    && key.datasetContentSHA256 != "" && key.snapshotManifestSHA256 != "" && key.orderedCaseSetSHA256 != ""
    && key.scoringPolicyVersion != ""
  }

  ghost predicate DistinctCases(db: Db, r: Uuid) {
    && CasesOf(db, r) != {}
    && forall c, d | c in CasesOf(db, r) && d in CasesOf(db, r) && c != d ::
         && db.cases[c].datasetCaseID != db.cases[d].datasetCaseID
         && db.cases[c].position != db.cases[d].position
  }

  ghost predicate AllTerminal(db: Db, r: Uuid) {
    forall c | c in CasesOf(db, r) :: TerminalCase(db.cases[c].state)
  }

  ghost predicate RunOk(db: Db, r: Uuid)
    requires r in db.runs
  {
    var run := db.runs[r];
    && KeyOk(run.key)
    && DistinctCases(db, r)
    && (TerminalRun(run.state) <==> AllTerminal(db, r))
    && (TerminalRun(run.state) <==> r in db.aggregates)
    && (TerminalRun(run.state) ==>
          && run.state == FinalState(db, r)
          && StorableAggregates(RunMetrics(db, r))
          && db.aggregates[r] == AggregateRows(RunMetrics(db, r)))
  }

  /** No two live leases carry the same token. */
  ghost predicate TokensDistinct(db: Db) {
    forall c, d | c in db.cases && d in db.cases && db.cases[c].lease.Some? && db.cases[d].lease.Some? && c != d ::
      db.cases[c].lease.value.token != db.cases[d].lease.value.token
  }

  ghost predicate TablesOk(db: Db) {
    && db.nextToken >= 1
    && db.metrics.Keys <= db.cases.Keys && db.evidence.Keys <= db.cases.Keys && db.aggregates.Keys <= db.runs.Keys
    && TokensDistinct(db)
  }

  ghost predicate Inv(catalog: Catalog, db: Db) {
    && TablesOk(db)
    && (forall c {:trigger CaseOk(catalog, db, c)} | c in db.cases :: CaseOk(catalog, db, c))
    && (forall r {:trigger RunOk(db, r)} | r in db.runs :: RunOk(db, r))
  }

  // ---------------------------------------------------------------- Frames

  /** The part of the tables that the invariant of run r reads is the same in both. */
  ghost predicate SameRun(db: Db, after: Db, r: Uuid) {
    && r in db.runs && r in after.runs && after.runs[r] == db.runs[r]
    && CasesOf(after, r) == CasesOf(db, r)
    && (forall c | c in CasesOf(db, r) ::
          && after.cases[c].state == db.cases[c].state
          && after.cases[c].datasetCaseID == db.cases[c].datasetCaseID
          && after.cases[c].position == db.cases[c].position
          && (c in after.metrics <==> c in db.metrics)
          && (c in db.metrics ==> after.metrics[c] == db.metrics[c]))
    && (r in after.aggregates <==> r in db.aggregates)
    && (r in db.aggregates ==> after.aggregates[r] == db.aggregates[r])
  }

  lemma SameRunMetrics(db: Db, after: Db, r: Uuid)
    requires CasesOf(after, r) == CasesOf(db, r)
    requires forall c | c in CasesOf(db, r) ::
               && after.cases[c].state == db.cases[c].state
               && (c in after.metrics <==> c in db.metrics)
               && (c in db.metrics ==> after.metrics[c] == db.metrics[c])
    ensures RunMetrics(after, r) == RunMetrics(db, r)
    ensures FinalState(after, r) == FinalState(db, r)
  {
    forall c ensures c in CasesOf(db, r) <==> c in db.cases && db.cases[c].runID == r {}
    forall c ensures c in CasesOf(after, r) <==> c in after.cases && after.cases[c].runID == r {}
    assert RunMetrics(after, r) == RunMetrics(db, r);
    SameState(db, after, r, Completed);
    SameState(db, after, r, Abstained);
    SameState(db, after, r, Failed);
    SameState(db, after, r, Cancelled);
  }

  lemma SameState(db: Db, after: Db, r: Uuid, state: CaseState)
    requires CasesOf(after, r) == CasesOf(db, r)
    requires forall c | c in CasesOf(db, r) :: after.cases[c].state == db.cases[c].state
    ensures InState(after, r, state) == InState(db, r, state)
  {
    assert InState(db, r, state) == set c | c in CasesOf(db, r) && db.cases[c].state == state;
    assert InState(after, r, state) == set c | c in CasesOf(after, r) && after.cases[c].state == state;
  }

  lemma RunFrame(db: Db, after: Db, r: Uuid)
    requires SameRun(db, after, r) && RunOk(db, r)
    ensures RunOk(after, r)
  {
    SameRunMetrics(db, after, r);
  }

  lemma InitialInvariant(catalog: Catalog)
    ensures Inv(catalog, EMPTY)
  {
  }

  // ---------------------------------------------------------------- CreateRun

  lemma {:induction false} WithCasesRows(rows: map<Uuid, CaseRow>, identity: RunIdentity, cases: seq<RunCase>, now: nat)
    requires forall i, j | 0 <= i < j < |cases| :: cases[i].id != cases[j].id
    ensures var after := WithCases(rows, identity, cases, now);
            && (forall i | 0 <= i < |cases| :: cases[i].id in after && after[cases[i].id] == NewCaseRow(identity, cases[i], now))
            && (forall c | c in after :: c in rows || exists i :: 0 <= i < |cases| && cases[i].id == c)
            && (forall c | c in rows && !(exists i :: 0 <= i < |cases| && cases[i].id == c) :: c in after && after[c] == rows[c])
  {
    if cases != [] {
      var earlier := cases[..|cases| - 1];
      WithCasesRows(rows, identity, earlier, now);
      forall i | 0 <= i < |earlier| ensures cases[i] == earlier[i] {}
    }
  }

  /** The rows CreateRun leaves behind. */
  lemma CreatedRows(catalog: Catalog, db: Db, request: CreateRunRequest, now: nat) returns (after: Db)
    requires ValidRequest(request) && StorableRequest(catalog, db, request)
    ensures after == CreateRun(catalog, db, request, now).0
    ensures forall c | c in db.cases :: c in after.cases && after.cases[c] == db.cases[c]
    ensures forall c | c in after.cases && c !in db.cases ::
              exists i :: 0 <= i < |request.cases| && request.cases[i].id == c && after.cases[c] == NewCaseRow(request.identity, request.cases[i], now)
    ensures forall i | 0 <= i < |request.cases| :: request.cases[i].id in after.cases && request.cases[i].id !in db.cases
  {
    after := CreateRun(catalog, db, request, now).0;
    WithCasesRows(db.cases, request.identity, request.cases, now);
  }

  /** Row c was made from the i-th case of the request. */
  ghost predicate MadeFrom(request: CreateRunRequest, row: CaseRow, c: Uuid, now: nat, i: int) {
    0 <= i < |request.cases| && request.cases[i].id == c && row == NewCaseRow(request.identity, request.cases[i], now)
  }

  lemma MadeRowsDiffer(request: CreateRunRequest, row: CaseRow, c: Uuid, i: int, other: CaseRow, d: Uuid, j: int, now: nat)
    requires ValidRunCases(request.cases) && c != d
    requires MadeFrom(request, row, c, now, i) && MadeFrom(request, other, d, now, j)
    ensures row.datasetCaseID != other.datasetCaseID && row.position != other.position
  {
    if i < j {
      assert request.cases[i].datasetCaseID != request.cases[j].datasetCaseID;
    } else {
      assert j < i;
      assert request.cases[j].datasetCaseID != request.cases[i].datasetCaseID;
    }
  }

  lemma CreatedRunIsDistinct(catalog: Catalog, db: Db, request: CreateRunRequest, now: nat)
    requires ValidRequest(request) && StorableRequest(catalog, db, request)
    requires forall c | c in db.cases :: db.cases[c].runID != request.identity.id
    ensures DistinctCases(CreateRun(catalog, db, request, now).0, request.identity.id)
    ensures !AllTerminal(CreateRun(catalog, db, request, now).0, request.identity.id)
  {
    var r := request.identity.id;
    var after := CreatedRows(catalog, db, request, now);
    assert request.cases[0].id in CasesOf(after, r) && !TerminalCase(after.cases[request.cases[0].id].state);
    forall c | c in CasesOf(after, r) ensures exists i :: MadeFrom(request, after.cases[c], c, now, i) {
      var i :| 0 <= i < |request.cases| && request.cases[i].id == c && after.cases[c] == NewCaseRow(request.identity, request.cases[i], now);
      assert MadeFrom(request, after.cases[c], c, now, i);
    }
    MadeRunIsDistinct(request, after, r, now);
  }

  lemma MadeRunIsDistinct(request: CreateRunRequest, after: Db, r: Uuid, now: nat)
    requires ValidRunCases(request.cases) && CasesOf(after, r) != {}
    requires forall c | c in CasesOf(after, r) :: exists i :: MadeFrom(request, after.cases[c], c, now, i)
    ensures DistinctCases(after, r)
  {
    forall c, d | c in CasesOf(after, r) && d in CasesOf(after, r) && c != d
      ensures after.cases[c].datasetCaseID != after.cases[d].datasetCaseID && after.cases[c].position != after.cases[d].position
    {
      var i :| MadeFrom(request, after.cases[c], c, now, i);
      var j :| MadeFrom(request, after.cases[d], d, now, j);
      MadeRowsDiffer(request, after.cases[c], c, i, after.cases[d], d, j, now);
    }
  }

  lemma CreatedRunOk(catalog: Catalog, db: Db, request: CreateRunRequest, now: nat)
    requires ValidRequest(request) && StorableRequest(catalog, db, request)
    requires forall c | c in db.cases :: db.cases[c].runID != request.identity.id
    requires db.aggregates.Keys <= db.runs.Keys
    ensures RunOk(CreateRun(catalog, db, request, now).0, request.identity.id)
  {
    CreatedRunIsDistinct(catalog, db, request, now);
  }

  lemma CreatedCaseOk(catalog: Catalog, db: Db, request: CreateRunRequest, now: nat, c: Uuid)
    requires TablesOk(db) && ValidRequest(request) && StorableRequest(catalog, db, request)
    requires c in db.cases ==> CaseOk(catalog, db, c)
    requires c in CreateRun(catalog, db, request, now).0.cases
    ensures CaseOk(catalog, CreateRun(catalog, db, request, now).0, c)
  {
    var after := CreatedRows(catalog, db, request, now);
    if c !in db.cases {
      var i :| 0 <= i < |request.cases| && request.cases[i].id == c && after.cases[c] == NewCaseRow(request.identity, request.cases[i], now);
    }
  }

  lemma CreatedOtherRunOk(catalog: Catalog, db: Db, request: CreateRunRequest, now: nat, r: Uuid)
    requires ValidRequest(request) && StorableRequest(catalog, db, request)
    requires r in db.runs && RunOk(db, r)
    ensures RunOk(CreateRun(catalog, db, request, now).0, r)
  {
    var after := CreatedRows(catalog, db, request, now);
    assert CasesOf(after, r) == CasesOf(db, r);
    RunFrame(db, after, r);
  }

  lemma CreatedTablesOk(catalog: Catalog, db: Db, request: CreateRunRequest, now: nat)
    requires TablesOk(db) && ValidRequest(request) && StorableRequest(catalog, db, request)
    ensures TablesOk(CreateRun(catalog, db, request, now).0)
  {
    var after := CreatedRows(catalog, db, request, now);
    forall c | c in after.cases && after.cases[c].lease.Some? ensures c in db.cases {}
  }

  lemma CreateRunKeepsInvariant(catalog: Catalog, db: Db, request: CreateRunRequest, now: nat)
    requires Inv(catalog, db) && ValidRequest(request) && StorableRequest(catalog, db, request)
    ensures Inv(catalog, CreateRun(catalog, db, request, now).0)
  {
    var after := CreateRun(catalog, db, request, now).0;
    CreatedTablesOk(catalog, db, request, now);
    forall c | c in db.cases ensures db.cases[c].runID != request.identity.id { assert CaseOk(catalog, db, c); }
    CreatedRunOk(catalog, db, request, now);
    forall c | c in after.cases ensures CaseOk(catalog, after, c) { CreatedCaseOk(catalog, db, request, now, c); }
    forall r | r in after.runs ensures RunOk(after, r) {
      if r != request.identity.id {
        CreatedOtherRunOk(catalog, db, request, now, r);
      }
    }
  }

  // ---------------------------------------------------------------- Claim

  /** What a claimed case must satisfy. */
  predicate Leasable(db: Db, c: Uuid) {
    c in db.cases && OpenCase(db.cases[c]) && db.cases[c].runID in db.runs && !TerminalRun(db.runs[db.cases[c].runID].state)
  }

  lemma ClaimOneKeepsCases(catalog: Catalog, db: Db, c: Uuid, workerID: string, expiresAt: nat, d: Uuid)
    requires db.nextToken >= 1 && Leasable(db, c) && d in db.cases
    requires CaseOk(catalog, db, c) && CaseOk(catalog, db, d)
    ensures CaseOk(catalog, ClaimOne(db, c, workerID, expiresAt), d)
  {
  }

  lemma ClaimOneKeepsRuns(db: Db, c: Uuid, workerID: string, expiresAt: nat, r: Uuid)
    requires Leasable(db, c) && r in db.runs && RunOk(db, r)
    ensures RunOk(ClaimOne(db, c, workerID, expiresAt), r)
  {
    var after := ClaimOne(db, c, workerID, expiresAt);
    assert CasesOf(after, r) == CasesOf(db, r);
    if r == db.cases[c].runID {
      assert c in CasesOf(after, r) && !TerminalCase(after.cases[c].state);
    } else {
      RunFrame(db, after, r);
    }
  }

  lemma ClaimOneKeepsTables(catalog: Catalog, db: Db, c: Uuid, workerID: string, expiresAt: nat)
    requires TablesOk(db) && Leasable(db, c)
    requires forall d | d in db.cases && db.cases[d].lease.Some? :: db.cases[d].lease.value.token < db.nextToken
    ensures TablesOk(ClaimOne(db, c, workerID, expiresAt))
  {
  }

  lemma ClaimOneKeepsInvariant(catalog: Catalog, db: Db, c: Uuid, workerID: string, expiresAt: nat)
    requires Inv(catalog, db) && Leasable(db, c)
    ensures Inv(catalog, ClaimOne(db, c, workerID, expiresAt))
  {
    var after := ClaimOne(db, c, workerID, expiresAt);
    forall d | d in db.cases && db.cases[d].lease.Some? ensures db.cases[d].lease.value.token < db.nextToken {
      assert CaseOk(catalog, db, d);
    }
    ClaimOneKeepsTables(catalog, db, c, workerID, expiresAt);
    forall d | d in after.cases ensures CaseOk(catalog, after, d) { ClaimOneKeepsCases(catalog, db, c, workerID, expiresAt, d); }
    forall r | r in after.runs ensures RunOk(after, r) { ClaimOneKeepsRuns(db, c, workerID, expiresAt, r); }
  }

  /** What a batch of different claims does to the rows. */
  ghost predicate Claimed(db: Db, ids: seq<Uuid>, workerID: string, expiresAt: nat, after: Db) {
    && after.cases.Keys == db.cases.Keys && after.runs.Keys == db.runs.Keys
    && after.nextToken == db.nextToken + |ids|
    && after.metrics == db.metrics && after.evidence == db.evidence && after.aggregates == db.aggregates
    && after.expected == db.expected
    && (forall c | c in db.cases && c !in ids :: after.cases[c] == db.cases[c])
    && (forall i | 0 <= i < |ids| :: ids[i] in db.cases && after.cases[ids[i]] ==
          db.cases[ids[i]].(state := Leased, attempts := db.cases[ids[i]].attempts + 1,
                            lease := Some(Lease(db.nextToken + i, workerID, expiresAt))))
    && (forall r | r in db.runs :: TerminalRun(after.runs[r].state) <==> TerminalRun(db.runs[r].state))
  }

  ghost predicate DistinctLeasable(db: Db, ids: seq<Uuid>) {
    && (forall i | 0 <= i < |ids| :: Leasable(db, ids[i]))
    && (forall i, j | 0 <= i < j < |ids| :: ids[i] != ids[j])
  }

  lemma {:induction false} ClaimAllRows(db: Db, ids: seq<Uuid>, workerID: string, expiresAt: nat)
    requires DistinctLeasable(db, ids)
    ensures Claimed(db, ids, workerID, expiresAt, ClaimAll(db, ids, workerID, expiresAt))
  {
    if ids != [] {
      ClaimAllRows(db, ids[..|ids| - 1], workerID, expiresAt);
      ClaimedOneMore(db, ids, workerID, expiresAt, ClaimAll(db, ids[..|ids| - 1], workerID, expiresAt));
    }
  }

  lemma ClaimedOneMore(db: Db, ids: seq<Uuid>, workerID: string, expiresAt: nat, before: Db)
    requires ids != [] && DistinctLeasable(db, ids)
    requires Claimed(db, ids[..|ids| - 1], workerID, expiresAt, before)
    ensures Leasable(before, ids[|ids| - 1])
    ensures Claimed(db, ids, workerID, expiresAt, ClaimOne(before, ids[|ids| - 1], workerID, expiresAt))
  {
    var earlier, last := ids[..|ids| - 1], ids[|ids| - 1];
    assert ids == earlier + [last];
    forall i | 0 <= i < |earlier| ensures earlier[i] != last { assert ids[i] != ids[|ids| - 1]; }
    assert Leasable(db, last);
    ClaimedAppend(db, earlier, last, workerID, expiresAt, before);
  }

  lemma ClaimedAppend(db: Db, earlier: seq<Uuid>, last: Uuid, workerID: string, expiresAt: nat, before: Db)
    requires Leasable(db, last) && last !in earlier
    requires Claimed(db, earlier, workerID, expiresAt, before)
    ensures Leasable(before, last)
    ensures Claimed(db, earlier + [last], workerID, expiresAt, ClaimOne(before, last, workerID, expiresAt))
  {
    assert before.cases[last] == db.cases[last];
    var after, ids := ClaimOne(before, last, workerID, expiresAt), earlier + [last];
    forall i | 0 <= i < |ids|
      ensures ids[i] in db.cases && after.cases[ids[i]] ==
          db.cases[ids[i]].(state := Leased, attempts := db.cases[ids[i]].attempts + 1,
                            lease := Some(Lease(db.nextToken + i, workerID, expiresAt)))
    {
      if i < |earlier| {
        assert ids[i] == earlier[i] && earlier[i] != last;
      }
    }
  }

  lemma {:induction false} ClaimAllKeepsInvariant(catalog: Catalog, db: Db, ids: seq<Uuid>, workerID: string, expiresAt: nat)
    requires Inv(catalog, db) && DistinctLeasable(db, ids)
    ensures Inv(catalog, ClaimAll(db, ids, workerID, expiresAt))
  {
    if ids != [] {
      var earlier := ids[..|ids| - 1];
      ClaimAllKeepsInvariant(catalog, db, earlier, workerID, expiresAt);
      ClaimAllRows(db, earlier, workerID, expiresAt);
      var before := ClaimAll(db, earlier, workerID, expiresAt);
      ClaimedOneMore(db, ids, workerID, expiresAt, before);
      ClaimOneKeepsInvariant(catalog, before, ids[|ids| - 1], workerID, expiresAt);
    }
  }

  lemma SelectedAreLeasable(catalog: Catalog, db: Db, now: nat, batch: nat, locked: set<Uuid>)
    ensures DistinctLeasable(db, Selected(catalog, db, now, batch, locked))
  {
    var candidates := Candidates(catalog, db, locked, now);
    SelectionIsCandidates(db, candidates, batch);
    forall i | 0 <= i < |Selection(db, candidates, batch)| ensures Leasable(db, Selection(db, candidates, batch)[i]) {
      assert Selection(db, candidates, batch)[i] in candidates;
    }
  }

  lemma ClaimKeepsInvariant(catalog: Catalog, db: Db, workerID: string, now: nat, period: int, batch: int, locked: set<Uuid>)
    requires Inv(catalog, db)
    ensures Inv(catalog, Claim(catalog, db, workerID, now, period, batch, locked).0)
  {
    if Claim(catalog, db, workerID, now, period, batch, locked).1 == Done {
      SelectedAreLeasable(catalog, db, now, batch, locked);
      ClaimAllKeepsInvariant(catalog, db, Selected(catalog, db, now, batch, locked), workerID, now + period);
    }
  }

  // ---------------------------------------------------------------- Finalisation

  /** The invariant with one open obligation: run r is running and its finalisation is still to be considered. */
  ghost predicate BeforeFinalize(catalog: Catalog, db: Db, r: Uuid) {
    && TablesOk(db)
    && (forall c {:trigger CaseOk(catalog, db, c)} | c in db.cases :: CaseOk(catalog, db, c))
    && (forall other {:trigger RunOk(db, other)} | other in db.runs && other != r :: RunOk(db, other))
    && r in db.runs && db.runs[r].state.Running? && r !in db.aggregates
    && KeyOk(db.runs[r].key) && DistinctCases(db, r)
  }

  lemma OpenOrTerminal(catalog: Catalog, db: Db, r: Uuid)
    requires forall c {:trigger CaseOk(catalog, db, c)} | c in db.cases :: CaseOk(catalog, db, c)
    ensures InState(db, r, Pending) + InState(db, r, Leased) == {} <==> AllTerminal(db, r)
  {
    forall c | c in CasesOf(db, r)
      ensures c in InState(db, r, Pending) + InState(db, r, Leased) <==> !TerminalCase(db.cases[c].state)
    {
      assert CaseOk(catalog, db, c);
    }
    assert InState(db, r, Pending) + InState(db, r, Leased) == set c | c in CasesOf(db, r) && !TerminalCase(db.cases[c].state);
  }

  /** Finalising touches one run row and its aggregates only. */
  lemma FinalizedRunOk(db: Db, r: Uuid)
    requires r in db.runs && db.runs[r].state.Running? && r !in db.aggregates
    requires KeyOk(db.runs[r].key) && DistinctCases(db, r)
    requires InState(db, r, Pending) + InState(db, r, Leased) == {} && AllTerminal(db, r)
    requires Finalize(db, r).Some?
    ensures RunOk(Finalize(db, r).value, r)
  {
    var after := Finalize(db, r).value;
    assert CasesOf(after, r) == CasesOf(db, r);
    SameRunMetrics(db, after, r);
  }

  lemma FinalizedOtherRunOk(db: Db, r: Uuid, other: Uuid)
    requires Finalize(db, r).Some? && other in db.runs && other != r && RunOk(db, other)
    ensures RunOk(Finalize(db, r).value, other)
  {
    var after := Finalize(db, r).value;
    assert CasesOf(after, other) == CasesOf(db, other);
    RunFrame(db, after, other);
  }

  lemma FinalizedCaseOk(catalog: Catalog, db: Db, r: Uuid, c: Uuid)
    requires Finalize(db, r).Some? && c in db.cases && CaseOk(catalog, db, c)
    requires r in db.runs && db.runs[r].state.Running?
    ensures CaseOk(catalog, Finalize(db, r).value, c)
  {
    if InState(db, r, Pending) + InState(db, r, Leased) == {} && db.cases[c].runID == r {
      assert c !in InState(db, r, Leased);
    }
  }

  lemma FinalizeKeepsInvariant(catalog: Catalog, db: Db, r: Uuid)
    requires BeforeFinalize(catalog, db, r) && Finalize(db, r).Some?
    ensures Inv(catalog, Finalize(db, r).value)
  {
    var after := Finalize(db, r).value;
    OpenOrTerminal(catalog, db, r);
    forall c | c in after.cases ensures CaseOk(catalog, after, c) {
      assert CaseOk(catalog, db, c);
      FinalizedCaseOk(catalog, db, r, c);
    }
    forall other | other in after.runs ensures RunOk(after, other) {
      if other != r {
        assert RunOk(db, other);
        FinalizedOtherRunOk(db, r, other);
      } else if AllTerminal(db, r) {
        FinalizedRunOk(db, r);
      }
    }
  }

  // ---------------------------------------------------------------- Complete and ReleaseForRetry

  /** One leased case of a running run is replaced; its child rows may be added. */
  ghost predicate CaseReplaced(db: Db, c: Uuid, after: Db) {
    && c in db.cases && db.cases[c].state.Leased?
    && after.runs == db.runs && after.aggregates == db.aggregates && after.nextToken == db.nextToken
    && after.cases.Keys == db.cases.Keys
    && after.cases[c].runID == db.cases[c].runID && after.cases[c].datasetCaseID == db.cases[c].datasetCaseID
    && after.cases[c].position == db.cases[c].position && after.cases[c].lease.None?
    && (forall d | d in db.cases && d != c :: after.cases[d] == db.cases[d])
    && (forall d | d != c :: (d in after.metrics <==> d in db.metrics) && (d in db.metrics ==> after.metrics[d] == db.metrics[d]))
    && (forall d | d != c :: (d in after.evidence <==> d in db.evidence))
  }

  lemma ReplacedOtherCases(catalog: Catalog, db: Db, c: Uuid, after: Db, d: Uuid)
    requires CaseReplaced(db, c, after) && d in db.cases && d != c && CaseOk(catalog, db, d)
    ensures CaseOk(catalog, after, d)
  {
  }

  lemma ReplacedOtherRuns(db: Db, c: Uuid, after: Db, r: Uuid)
    requires CaseReplaced(db, c, after) && r in db.runs && r != db.cases[c].runID && RunOk(db, r)
    ensures RunOk(after, r)
  {
    assert CasesOf(after, r) == CasesOf(db, r);
    RunFrame(db, after, r);
  }

  lemma ReplacedOwnRun(catalog: Catalog, db: Db, c: Uuid, after: Db)
    requires CaseReplaced(db, c, after) && CaseOk(catalog, db, c) && RunOk(db, db.cases[c].runID)
    ensures var r := db.cases[c].runID;
            r in db.runs && db.runs[r].state.Running? && r !in db.aggregates && KeyOk(db.runs[r].key) && DistinctCases(after, r)
  {
    var r := db.cases[c].runID;
    assert CasesOf(after, r) == CasesOf(db, r);
  }

  lemma ReplacedTables(db: Db, c: Uuid, after: Db)
    requires CaseReplaced(db, c, after) && TablesOk(db)
    ensures TablesOk(after)
  {
    forall d | d in after.metrics.Keys ensures d in after.cases.Keys {
      if d != c {
        assert d in db.metrics;
      }
    }
    forall d | d in after.evidence.Keys ensures d in after.cases.Keys {
      if d != c {
        assert d in db.evidence;
      }
    }
  }

  lemma ReplacedBeforeFinalize(catalog: Catalog, db: Db, c: Uuid, after: Db)
    requires Inv(catalog, db) && CaseReplaced(db, c, after) && CaseOk(catalog, after, c)
    ensures BeforeFinalize(catalog, after, db.cases[c].runID)
  {
    var r := db.cases[c].runID;
    assert CaseOk(catalog, db, c);
    assert RunOk(db, r);
    ReplacedOwnRun(catalog, db, c, after);
    ReplacedTables(db, c, after);
    forall d | d in after.cases ensures CaseOk(catalog, after, d) {
      if d != c {
        assert CaseOk(catalog, db, d);
        ReplacedOtherCases(catalog, db, c, after, d);
      }
    }
    forall other | other in after.runs && other != r ensures RunOk(after, other) {
      assert RunOk(db, other);
      ReplacedOtherRuns(db, c, after, other);
    }
  }

  // ---------------------------------------------------------------- The metric rows a terminal case gets

  lemma MetricRowIsOk(m: Metric, policy: string)
    requires ValidMetric(m)
    ensures RowOk(MetricRowOf(m, policy), policy)
  {
  }

  lemma {:induction false} MetricTableRows(metrics: seq<Metric>, policy: string)
    requires forall m | m in metrics :: ValidMetric(m)
    ensures MetricTable(metrics, policy).Keys == set m | m in metrics :: m.name
    ensures forall name | name in MetricTable(metrics, policy) :: RowOk(MetricTable(metrics, policy)[name], policy)
  {
    if metrics != [] {
      var earlier, last := metrics[..|metrics| - 1], metrics[|metrics| - 1];
      assert forall m :: m in metrics <==> m in earlier || m == last;
      MetricTableRows(earlier, policy);
      MetricRowIsOk(last, policy);
    }
  }

  lemma TerminalTableIsComplete(result: TerminalCaseResult, policy: string)
    requires ValidTerminalResult(result) && StorableMetrics(result, policy)
    ensures CompleteLedger(TerminalTable(result, policy), result.state, policy)
  {
    if !TerminalFailure(result.state) {
      MetricTableRows(result.metrics, policy);
    }
  }

  lemma UnscoredTableIsComplete(policy: string)
    ensures CompleteLedger(UnscoredTable(policy), Failed, policy)
  {
  }

  lemma CompletedCaseOk(catalog: Catalog, db: Db, claim: ClaimedCase, result: TerminalCaseResult)
    requires ValidTerminalResult(result) && HoldsLease(db, claim) && StorableResult(catalog, db, claim, result)
    requires CaseOk(catalog, db, claim.id)
    ensures CaseReplaced(db, claim.id, WithTerminalCase(db, claim, result))
    ensures CaseOk(catalog, WithTerminalCase(db, claim, result), claim.id)
  {
    TerminalTableIsComplete(result, db.runs[claim.runID].key.scoringPolicyVersion);
  }

  lemma CompleteKeepsInvariant(catalog: Catalog, db: Db, claim: ClaimedCase, result: TerminalCaseResult)
    requires Inv(catalog, db)
    ensures Inv(catalog, Complete(catalog, db, claim, result).0)
  {
    if Complete(catalog, db, claim, result).1 == Done {
      var mid := WithTerminalCase(db, claim, result);
      assert CaseOk(catalog, db, claim.id);
      CompletedCaseOk(catalog, db, claim, result);
      ReplacedBeforeFinalize(catalog, db, claim.id, mid);
      FinalizeKeepsInvariant(catalog, mid, claim.runID);
    }
  }

  lemma ExhaustedCaseOk(catalog: Catalog, db: Db, claim: ClaimedCase, failureCode: string)
    requires HoldsLease(db, claim) && ClaimNamesItsRun(db, claim) && claim.id !in db.metrics && CaseOk(catalog, db, claim.id)
    ensures CaseReplaced(db, claim.id, WithExhaustedCase(db, claim, failureCode))
    ensures CaseOk(catalog, WithExhaustedCase(db, claim, failureCode), claim.id)
  {
    UnscoredTableIsComplete(db.runs[claim.runID].key.scoringPolicyVersion);
  }

  lemma ReturnedCaseOk(catalog: Catalog, db: Db, claim: ClaimedCase)
    requires HoldsLease(db, claim) && CaseOk(catalog, db, claim.id)
    ensures CaseReplaced(db, claim.id, db.(cases := db.cases[claim.id := ReleasedRow(db.cases[claim.id])]))
    ensures CaseOk(catalog, db.(cases := db.cases[claim.id := ReleasedRow(db.cases[claim.id])]), claim.id)
  {
  }

  lemma ReleaseKeepsInvariant(catalog: Catalog, db: Db, claim: ClaimedCase, failureCode: string, maxAttempts: int)
    requires Inv(catalog, db)
    ensures Inv(catalog, ReleaseForRetry(db, claim, failureCode, maxAttempts).0)
  {
    if ReleaseForRetry(db, claim, failureCode, maxAttempts).1 == Done {
      assert CaseOk(catalog, db, claim.id);
      if db.cases[claim.id].attempts >= maxAttempts {
        ExhaustedCaseOk(catalog, db, claim, failureCode);
        ReplacedBeforeFinalize(catalog, db, claim.id, WithExhaustedCase(db, claim, failureCode));
        FinalizeKeepsInvariant(catalog, WithExhaustedCase(db, claim, failureCode), claim.runID);
      } else {
        var mid := db.(cases := db.cases[claim.id := ReleasedRow(db.cases[claim.id])]);
        ReturnedCaseOk(catalog, db, claim);
        ReplacedBeforeFinalize(catalog, db, claim.id, mid);
        FinalizeKeepsInvariant(catalog, mid, db.cases[claim.id].runID);
      }
    }
  }

  // ---------------------------------------------------------------- Every history

  lemma ApplyKeepsInvariant(catalog: Catalog, db: Db, e: Event)
    requires Inv(catalog, db)
    ensures Inv(catalog, Apply(catalog, db, e).0)
  {
    match e
    case CreateRunEvent(request, now) =>
      if ValidRequest(request) && StorableRequest(catalog, db, request) {
        CreateRunKeepsInvariant(catalog, db, request, now);
      }
    case ClaimEvent(workerID, now, period, batch, locked) =>
      ClaimKeepsInvariant(catalog, db, workerID, now, period, batch, locked);
    case CompleteEvent(claim, result) => CompleteKeepsInvariant(catalog, db, claim, result);
    case ReleaseEvent(claim, failureCode, maxAttempts) => ReleaseKeepsInvariant(catalog, db, claim, failureCode, maxAttempts);
  }

  /** The invariant holds after every history of repository calls, whoever makes them and in whatever order. */
  lemma {:induction false} EveryHistoryKeepsInvariant(catalog: Catalog, db: Db, history: seq<Event>)
    requires Inv(catalog, db)
    ensures Inv(catalog, Exec(catalog, db, history))
  {
    if history != [] {
      EveryHistoryKeepsInvariant(catalog, db, history[..|history| - 1]);
      ApplyKeepsInvariant(catalog, Exec(catalog, db, history[..|history| - 1]), history[|history| - 1]);
    }
  }
}
