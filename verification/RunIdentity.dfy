/** What a run is never loses: its key, its experiment and its non-nil identifiers. */
module RunIdentities {
  import opened Text
  import opened Evaluation
  import opened Ledger
  import opened LedgerInvariant
  import LedgerHistory

  ghost predicate SameIdentity(db: Db, after: Db, r: Uuid)
    requires r in db.runs
  {
    r in after.runs && after.runs[r].key == db.runs[r].key && after.runs[r].experiment == db.runs[r].experiment
  }

  /** Every run keeps its identity, and no run appears. */
  ghost predicate SameRuns(db: Db, after: Db) {
    after.runs.Keys == db.runs.Keys && forall r {:trigger SameIdentity(db, after, r)} | r in db.runs :: SameIdentity(db, after, r)
  }

  lemma {:induction false} ClaimAllKeepsRuns(db: Db, ids: seq<Uuid>, workerID: string, expiresAt: nat)
    requires DistinctLeasable(db, ids)
    ensures SameRuns(db, ClaimAll(db, ids, workerID, expiresAt))
  {
    if ids != [] {
      var before := ClaimAll(db, ids[..|ids| - 1], workerID, expiresAt);
      ClaimAllKeepsRuns(db, ids[..|ids| - 1], workerID, expiresAt);
      forall r | r in db.runs ensures SameIdentity(db, ClaimAll(db, ids, workerID, expiresAt), r) {
        assert SameIdentity(db, before, r);
      }
    }
  }

  lemma FinalizeKeepsRuns(db: Db, run: Uuid)
    requires Finalize(db, run).Some?
    ensures SameRuns(db, Finalize(db, run).value)
  {
    if InState(db, run, Pending) + InState(db, run, Leased) == {} {
      assert Finalize(db, run).value.runs == if run in db.runs && db.runs[run].state.Running?
        then db.runs[run := db.runs[run].(state := FinalState(db, run))] else db.runs;
    }
  }

  lemma ClaimKeepsRuns(catalog: Catalog, db: Db, e: Event)
    requires e.ClaimEvent?
    ensures SameRuns(db, Apply(catalog, db, e).0)
  {
    if Apply(catalog, db, e).1 == Done {
      SelectedAreLeasable(catalog, db, e.now, e.batch, e.locked);
      ClaimAllKeepsRuns(db, Selected(catalog, db, e.now, e.batch, e.locked), e.workerID, e.now + e.period);
    }
  }

  lemma CompleteKeepsRuns(catalog: Catalog, db: Db, claim: ClaimedCase, result: TerminalCaseResult)
    ensures SameRuns(db, Complete(catalog, db, claim, result).0)
  {
    if Complete(catalog, db, claim, result).1 == Done {
      var mid := WithTerminalCase(db, claim, result);
      FinalizeKeepsRuns(mid, claim.runID);
      forall r | r in db.runs ensures SameIdentity(db, Complete(catalog, db, claim, result).0, r) {
        assert SameIdentity(mid, Finalize(mid, claim.runID).value, r);
      }
    }
  }

  lemma ReleaseKeepsRuns(catalog: Catalog, db: Db, e: Event)
    requires e.ReleaseEvent?
    ensures SameRuns(db, Apply(catalog, db, e).0)
  {
    if Apply(catalog, db, e).1 == Done {
      var exhausted := db.cases[e.claim.id].attempts >= e.maxAttempts;
      var r := if exhausted then e.claim.runID else db.cases[e.claim.id].runID;
      var mid := if exhausted then WithExhaustedCase(db, e.claim, e.failureCode)
                 else db.(cases := db.cases[e.claim.id := ReleasedRow(db.cases[e.claim.id])]);
      FinalizeKeepsRuns(mid, r);
      forall r | r in db.runs ensures SameIdentity(db, Apply(catalog, db, e).0, r) {
        assert SameIdentity(mid, Apply(catalog, db, e).0, r);
      }
    }
  }

  /** No call changes the key or the experiment of a run, and only CreateRun adds one. */
  lemma IdentitySurvives(catalog: Catalog, db: Db, e: Event)
    ensures forall r {:trigger SameIdentity(db, Apply(catalog, db, e).0, r)} | r in db.runs :: SameIdentity(db, Apply(catalog, db, e).0, r)
    ensures !e.CreateRunEvent? ==> SameRuns(db, Apply(catalog, db, e).0)
  {
    match e
    case CreateRunEvent(_, _) =>
    case ClaimEvent(_, _, _, _, _) => ClaimKeepsRuns(catalog, db, e);
    case CompleteEvent(claim, result) => CompleteKeepsRuns(catalog, db, claim, result);
    case ReleaseEvent(_, _, _) => ReleaseKeepsRuns(catalog, db, e);
  }

  // ---------------------------------------------------------------- What every claim will be able to name

  predicate NamedExperiment(experiment: Experiment) {
    && !Blank(experiment.strategy) && !Blank(experiment.fingerprint)
    && !Blank(experiment.agentBuild) && !Blank(experiment.chatModel) && !Blank(experiment.embeddingModel)
  }

  /** No nil identifier and no blank experiment in the tables. */
  ghost predicate Named(db: Db) {
    && (forall r | r in db.runs :: r != NIL && NamedExperiment(db.runs[r].experiment))
    && forall c | c in db.cases :: c != NIL
  }

  lemma CreateKeepsNames(catalog: Catalog, db: Db, request: CreateRunRequest, now: nat)
    requires Named(db)
    ensures Named(CreateRun(catalog, db, request, now).0)
  {
    if ValidRequest(request) && StorableRequest(catalog, db, request) {
      var after := CreatedRows(catalog, db, request, now);
      forall c | c in after.cases ensures c != NIL {
        if c !in db.cases {
          var i :| 0 <= i < |request.cases| && request.cases[i].id == c;
          assert ValidRunCase(request.cases[i]);
        }
      }
    }
  }

  lemma CallKeepsNames(catalog: Catalog, db: Db, e: Event)
    requires Named(db)
    ensures Named(Apply(catalog, db, e).0)
  {
    if e.CreateRunEvent? {
      CreateKeepsNames(catalog, db, e.request, e.now);
    } else {
      var after := Apply(catalog, db, e).0;
      LedgerHistory.OtherCallsAddNoCases(catalog, db, e);
      IdentitySurvives(catalog, db, e);
      forall r | r in after.runs ensures r != NIL && NamedExperiment(after.runs[r].experiment) {
        assert SameIdentity(db, after, r);
      }
    }
  }

  lemma {:induction false} EveryHistoryKeepsNames(catalog: Catalog, db: Db, history: seq<Event>)
    requires Named(db)
    ensures Named(Exec(catalog, db, history))
  {
    if history != [] {
      EveryHistoryKeepsNames(catalog, db, history[..|history| - 1]);
      CallKeepsNames(catalog, Exec(catalog, db, history[..|history| - 1]), history[|history| - 1]);
    }
  }
}
