/** The evaluation worker: it claims a batch and answers every claim with one call to the store. */
module EvaluationWorker {
  import opened Text
  import opened Evaluation
  import opened Ledger
  import opened LedgerInvariant
  import opened LedgerHistory
  import opened LedgerStore
  import opened WorkerAnswers
  import opened RunIdentities
  import LedgerFinal
  import LedgerOutcomes
  import LedgerRetry
  import Scoring

  // ---------------------------------------------------------------- The worker

  class Worker {
    const store: Repository
    const processor: ClaimedCase -> Option<TerminalCaseResult>
    const workerID: string
    const leasePeriod: int
    const maxAttempts: int
    const batchSize: int

    ghost predicate Valid() {
      !Blank(workerID) && leasePeriod > 0 && maxAttempts >= 1 && batchSize >= 1
    }

    constructor (store: Repository, processor: ClaimedCase -> Option<TerminalCaseResult>, workerID: string, leasePeriod: int,
                 maxAttempts: int, batchSize: int)
      requires !Blank(workerID) && leasePeriod > 0 && maxAttempts >= 1 && batchSize >= 1
      ensures Valid() && this.store == store && this.processor == processor && this.workerID == workerID
      ensures this.leasePeriod == leasePeriod && this.maxAttempts == maxAttempts && this.batchSize == batchSize
    {
      this.store, this.processor, this.workerID := store, processor, workerID;
      this.leasePeriod, this.maxAttempts, this.batchSize := leasePeriod, maxAttempts, batchSize;
    }

    /** A lost lease is no failure; any other store error is. */
    method ReleaseForRetry(claim: ClaimedCase, failureCode: string) returns (failed: bool)
      modifies store
      ensures var (after, status) := Apply(store.catalog, old(store.Tables()), ReleaseEvent(claim, failureCode, maxAttempts));
              store.Tables() == after && failed == (status == Rejected)
    {
      var status := store.ReleaseForRetry(claim, failureCode, maxAttempts);
      failed := status != Done && status != LeaseLost;
    }

    method ProcessCase(claim: ClaimedCase) returns (failed: bool)
      modifies store
      ensures var (after, status) := Apply(store.catalog, old(store.Tables()), Answer(claim, processor(claim), maxAttempts));
              store.Tables() == after && failed == (status == Rejected)
    {
      var outcome := processor(claim);
      if outcome.None? {
        failed := ReleaseForRetry(claim, "execution_retryable");
        return;
      }
      var ok := ValidateTerminalCaseResult(outcome.value);
      if !ok {
        failed := ReleaseForRetry(claim, "invalid_execution_result");
        return;
      }
      var status := store.Complete(claim, outcome.value);
      failed := status != Done && status != LeaseLost;
    }

    /** The batch as the store will see it. */
    function BatchOf(claims: seq<ClaimedCase>, others: nat -> seq<Event>): (b: Batch)
      ensures Sized(b) && b.claims == claims && b.maxAttempts == maxAttempts
      ensures forall i | 0 <= i < |claims| :: b.outcomes[i] == processor(claims[i]) && b.others[i] == others(i)
    {
      Batch(claims, seq(|claims|, i requires 0 <= i < |claims| => processor(claims[i])), maxAttempts,
            seq(|claims|, i requires 0 <= i < |claims| => others(i)))
    }

    /**
     Answers the claims in order, stopping at the first answer the store rejects. Before answer i other
     workers make the calls others(i).
     */
    method ProcessBatch(claims: seq<ClaimedCase>, others: nat -> seq<Event>, ghost ids: seq<Uuid>, ghost firstToken: nat, ghost expiresAt: nat)
      returns (failed: bool, ghost answered: nat)
      requires maxAttempts >= 1
      modifies store
      ensures AnsweredUpTo(store.catalog, old(store.Tables()), BatchOf(claims, others), answered, failed, store.Tables())
      ensures Handed(store.catalog, old(store.Tables()), ids, claims, firstToken, expiresAt) ==>
                BatchOutcome(store.catalog, old(store.Tables()), BatchOf(claims, others), expiresAt, answered, failed, store.Tables())
    {
      ghost var start, b := store.Tables(), BatchOf(claims, others);
      answered := 0;
      for index := 0 to |claims|
        invariant answered == index
        invariant store.Tables() == Exec(store.catalog, start, Turns(b, index))
        invariant NoneRejected(store.catalog, start, b, index)
      {
        store.Replay(others(index));
        ExecSplit(store.catalog, start, Turns(b, index), b.others[index]);
        var broken := ProcessCase(claims[index]);
        TurnsOneMore(store.catalog, start, b, index);
        answered := index + 1;
        if broken {
          failed := true;
          HandedBatchEnds(store.catalog, start, ids, firstToken, expiresAt, b, answered, failed, store.Tables());
          return;
        }
      }
      failed := false;
      HandedBatchEnds(store.catalog, start, ids, firstToken, expiresAt, b, answered, failed, store.Tables());
    }

    /** The claim that opens a batch; it fails as a whole when an attempt counter cannot be raised. */
    method ClaimBatch(now: nat, locked: set<Uuid>) returns (claimed: bool, claims: seq<ClaimedCase>, ghost expiresAt: nat)
      requires Valid()
      modifies store
      ensures claimed <==> Countable(old(store.Tables()), Selected(store.catalog, old(store.Tables()), now, batchSize, locked))
      ensures (store.Tables(), if claimed then Done else Rejected)
           == Apply(store.catalog, old(store.Tables()), ClaimEvent(workerID, now, leasePeriod, batchSize, locked))
      ensures !claimed ==> claims == []
      ensures claimed ==>
                && expiresAt == now + leasePeriod
                && ClaimsDescribe(store.catalog, store.Tables(), Selected(store.catalog, old(store.Tables()), now, batchSize, locked),
                                  claims, old(store.Tables()).nextToken, expiresAt)
      ensures claimed && Sound(store.catalog, old(store.Tables())) ==>
                Handed(store.catalog, store.Tables(), Selected(store.catalog, old(store.Tables()), now, batchSize, locked), claims,
                       old(store.Tables()).nextToken, expiresAt)
    {
      ghost var before := store.Tables();
      var status;
      status, claims, expiresAt := store.Claim(workerID, now, leasePeriod, batchSize, locked);
      claimed := status == Done;
      ClaimKeepsSound(store.catalog, before, ClaimEvent(workerID, now, leasePeriod, batchSize, locked));
    }

    /**
     One batch: a claim, then one answer per claimed case, with the calls others(i) of other workers before
     answer i. The count includes claims that were released.
     */
    method RunOnce(now: nat, locked: set<Uuid>, others: nat -> seq<Event>)
      returns (count: nat, failed: bool, ghost claimed: bool, ghost claims: seq<ClaimedCase>, ghost leased: Db, ghost answered: nat,
               ghost expiresAt: nat)
      requires Valid()
      modifies store
      ensures claimed <==> Countable(old(store.Tables()), Selected(store.catalog, old(store.Tables()), now, batchSize, locked))
      ensures (leased, if claimed then Done else Rejected)
           == Apply(store.catalog, old(store.Tables()), ClaimEvent(workerID, now, leasePeriod, batchSize, locked))
      ensures !claimed ==> failed && count == 0 && store.Tables() == old(store.Tables())
      ensures claimed ==>
                && count == |claims| == |Selected(store.catalog, old(store.Tables()), now, batchSize, locked)|
                && expiresAt == now + leasePeriod
                && ClaimsDescribe(store.catalog, leased, Selected(store.catalog, old(store.Tables()), now, batchSize, locked), claims,
                                  old(store.Tables()).nextToken, expiresAt)
                && AnsweredUpTo(store.catalog, leased, BatchOf(claims, others), answered, failed, store.Tables())
      ensures claimed && Sound(store.catalog, old(store.Tables())) ==>
                BatchOutcome(store.catalog, leased, BatchOf(claims, others), expiresAt, answered, failed, store.Tables())
    {
      ghost var ids, token := Selected(store.catalog, store.Tables(), now, batchSize, locked), store.Tables().nextToken;
      var ok, batch;
      ok, batch, expiresAt := ClaimBatch(now, locked);
      claimed, claims, leased := ok, batch, store.Tables();
      if !ok {
        count, failed, answered := 0, true, 0;
        return;
      }
      failed, answered := ProcessBatch(batch, others, ids, token, expiresAt);
      count := |batch|;
    }
  }

  // ---------------------------------------------------------------- The agent adapter

  /** What the fixed-snapshot agent client reports. */
  datatype AgentReply =
    | TransportFailure
    | IdentityUnavailable
    | Reply(identityMatches: bool, materialized: Scoring.MaterializedCase, grounding: string)

  /** Processor.Process: no branch attaches metrics. */
  function Process(reply: AgentReply): Option<TerminalCaseResult> {
    match reply
    case TransportFailure => None
    case IdentityUnavailable =>
      Some(TerminalCaseResult(Failed, "", "", "frozen_identity_unavailable", None, None, None, [], [], ""))
    case Reply(identityMatches, actual, grounding) =>
      if !identityMatches then None
      else Some(TerminalCaseResult(
        if actual.outcome == Scoring.AgentAbstained then Abstained else Completed, actual.answer, grounding, "",
        actual.latency, actual.inputTokens, actual.outputTokens, actual.retrieved + actual.cited, [], ""))
  }

  /** The adapter hands on what the agent reported, as scoring would store it but for the metrics it leaves out. */
  lemma AgentRepliesAreHandedOn(corpusID: Uuid, snapshotID: Uuid, result: Scoring.AgentCaseResult, grounding: string)
    requires Scoring.AcceptableResult(corpusID, snapshotID, result) && !Scoring.FailedExecution(result.state)
    ensures var actual := Scoring.MaterializedOf(corpusID, snapshotID, result);
            Process(Reply(true, actual, grounding)) ==
              Some(LedgerFinal.ScoredResult(actual, [], grounding, "").(scoringPolicyVersion := ""))
  {
  }

  /** When the frozen identity is unavailable the case fails under that code, exactly if the sums of its run fit. */
  lemma UnavailableIdentityFailsTheCase(catalog: Catalog, db: Db, claim: ClaimedCase, result: TerminalCaseResult)
    requires Inv(catalog, db) && HoldsLease(db, claim) && ClaimNamesItsRun(db, claim) && ValidClaim(claim)
    requires Process(IdentityUnavailable) == Some(result)
    ensures var (after, status) := Complete(catalog, db, claim, result);
            && (status == Done <==> Fits(WithTerminalCase(db, claim, result), claim.runID))
            && (status == Done ==>
                  && claim.id in after.cases && after.cases[claim.id].state.Failed?
                  && after.cases[claim.id].result.failureCode == Some("frozen_identity_unavailable"))
  {
    assert !IsSpace("frozen_identity_unavailable"[0]);
    assert WorkerAccepts(result) && StoreDemands(catalog, db, claim, result);
    CompletionTakenExactly(catalog, db, claim, result);
    LedgerOutcomes.CompletionStoresResult(catalog, db, claim, result);
  }

  /** No agent reply is ever recorded as a completion or an abstention: the store refuses it and the batch stops. */
  lemma AgentRepliesAreRefused(catalog: Catalog, db: Db, claim: ClaimedCase, reply: AgentReply, maxAttempts: int)
    requires reply.Reply? && reply.identityMatches && WorkerAccepts(Process(reply).value)
    requires ValidClaim(claim) && HoldsLease(db, claim)
    ensures Apply(catalog, db, Answer(claim, Process(reply), maxAttempts)) == (db, Rejected)
  {
  }

  /** A plain answer shows the gap: the worker lets it through, and no scoring policy makes it storable. */
  lemma AnswerWithoutMetricsShowsTheGap(policy: string)
    ensures var reply := Reply(true, Scoring.MaterializedCase(
              1, 1, Scoring.ExecCompleted, Scoring.AgentCompleted, "yes", [], [], [], None, None, None), "");
            WorkerAccepts(Process(reply).value) && !StorableMetrics(Process(reply).value, policy)
  {
    assert !IsSpace("yes"[0]);
  }

  /** Completions carry no metrics, as the agent adapter leaves them. */
  predicate Unscored(history: seq<Event>) {
    forall e | e in history :: e.CompleteEvent? ==> e.result.metrics == []
  }

  lemma UnscoredCallKeepsFailures(catalog: Catalog, db: Db, e: Event, c: Uuid)
    requires e.CompleteEvent? ==> e.result.metrics == []
    requires c in db.cases && (TerminalCase(db.cases[c].state) ==> TerminalFailure(db.cases[c].state))
    ensures c in Apply(catalog, db, e).0.cases
    ensures var state := Apply(catalog, db, e).0.cases[c].state; TerminalCase(state) ==> TerminalFailure(state)
  {
    EveryCallMovesCases(catalog, db, e, c);
    if e.CompleteEvent? && MoveOf(catalog, db, e, c) == Settled {
      FinalizeKeepsRows(WithTerminalCase(db, e.claim, e.result), e.claim.runID);
      assert StorableMetrics(e.result, db.runs[e.claim.runID].key.scoringPolicyVersion);
    } else if e.ReleaseEvent? && MoveOf(catalog, db, e, c) == Settled {
      FinalizeKeepsRows(WithExhaustedCase(db, e.claim, e.failureCode), e.claim.runID);
    }
  }

  /** Without metrics no case is ever completed or abstained. */
  lemma {:induction false} UnscoredHistoriesOnlyFail(catalog: Catalog, history: seq<Event>, c: Uuid)
    requires Unscored(history) && c in Exec(catalog, EMPTY, history).cases
    ensures var state := Exec(catalog, EMPTY, history).cases[c].state; TerminalCase(state) ==> TerminalFailure(state)
  {
    if history != [] {
      var earlier, last := history[..|history| - 1], history[|history| - 1];
      var before := Exec(catalog, EMPTY, earlier);
      assert last in history;
      if c in before.cases {
        UnscoredHistoriesOnlyFail(catalog, earlier, c);
        UnscoredCallKeepsFailures(catalog, before, last, c);
      } else {
        LedgerRetry.NewCasesArePending(catalog, before, last, c);
      }
    }
  }

  /** So a run that finishes finishes as failed, and none of its ten aggregates is scored. */
  lemma UnscoredRunsFail(catalog: Catalog, history: seq<Event>, r: Uuid)
    requires Unscored(history) && r in Exec(catalog, EMPTY, history).runs
    ensures var db := Exec(catalog, EMPTY, history);
            TerminalRun(db.runs[r].state) ==>
              && db.runs[r].state.RunFailed? && r in db.aggregates && |db.aggregates[r]| == 10
              && forall g | g in db.aggregates[r] :: db.aggregates[r][g].state == NotScored
  {
    var db := Exec(catalog, EMPTY, history);
    InitialInvariant(catalog);
    EveryHistoryKeepsInvariant(catalog, EMPTY, history);
    LedgerFinal.RunStateFollowsCases(catalog, db, r);
    forall c | c in CasesOf(db, r) ensures TerminalCase(db.cases[c].state) ==> TerminalFailure(db.cases[c].state) {
      UnscoredHistoriesOnlyFail(catalog, history, c);
    }
    if TerminalRun(db.runs[r].state) {
      LedgerFinal.FinishedRunHasTenAggregates(catalog, db, r);
      forall g | g in db.aggregates[r] ensures db.aggregates[r][g].state == NotScored {
        LedgerOutcomes.FailedRunsAreNotScored(catalog, db, r, g);
      }
    }
  }

  /** A result scored by ScoreCaseV1 passes both checks: it is recorded exactly when its evidence and the run's sums fit their columns. */
  lemma ScoredAnswersAreTaken(
    catalog: Catalog, db: Db, claim: ClaimedCase, result: Scoring.AgentCaseResult, expectedOutcome: ExpectedOutcome,
    expected: seq<EvidenceProvenance>, why: Scoring.Rationales, grounding: string, failureCode: string, maxAttempts: int)
    requires claim.id in db.cases && CaseOk(catalog, db, claim.id) && ValidClaim(claim)
    requires HoldsLease(db, claim) && ClaimNamesItsRun(db, claim)
    requires claim.snapshotID == db.runs[claim.runID].key.snapshotID
    requires db.runs[claim.runID].key.scoringPolicyVersion == Scoring.SCORING_POLICY_V1
    requires Scoring.AcceptableResult(claim.corpusID, claim.snapshotID, result) && !Blank(failureCode) && Scoring.NoneBlank(why)
    requires forall n | 0 <= n < |result.retrieved| :: InSnapshot(catalog, result.retrieved[n])
    ensures var scored := LedgerFinal.ScoredForm(
              claim.corpusID, claim.snapshotID, result, expectedOutcome, expected, why, grounding, failureCode);
            && WorkerAccepts(scored)
            && (Apply(catalog, db, Answer(claim, Some(scored), maxAttempts)).1 == Done <==>
                  EvidenceFits(scored.actualEvidence) && Finalize(WithTerminalCase(db, claim, scored), claim.runID).Some?)
  {
    LedgerFinal.ScoredResultsAreStorable(catalog, db, claim, result, expectedOutcome, expected, why, grounding, failureCode);
    ValidResultsPassTheWorker(LedgerFinal.ScoredForm(
      claim.corpusID, claim.snapshotID, result, expectedOutcome, expected, why, grounding, failureCode));
    AcceptedResultIsOffered(catalog, db, claim, LedgerFinal.ScoredForm(
      claim.corpusID, claim.snapshotID, result, expectedOutcome, expected, why, grounding, failureCode), maxAttempts);
    CompletionSucceedsExactly(catalog, db, claim, LedgerFinal.ScoredForm(
      claim.corpusID, claim.snapshotID, result, expectedOutcome, expected, why, grounding, failureCode));
  }

  lemma ValidResultsPassTheWorker(result: TerminalCaseResult)
    requires ValidTerminalResult(result)
    ensures WorkerAccepts(result)
  {
    forall m | m in result.metrics ensures NamedMetric(m) { assert ValidMetric(m); }
  }

  /** An accepted result reaches the store unchanged. */
  lemma AcceptedResultIsOffered(catalog: Catalog, db: Db, claim: ClaimedCase, result: TerminalCaseResult, maxAttempts: int)
    requires WorkerAccepts(result)
    ensures Apply(catalog, db, Answer(claim, Some(result), maxAttempts)) == Complete(catalog, db, claim, result)
  {
    var e := Answer(claim, Some(result), maxAttempts);
    assert e == CompleteEvent(claim, result);
  }
}
