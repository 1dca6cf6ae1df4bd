/** What a worker asks of the store for each claim, which answers the store takes, and how a batch of them ends. */
module WorkerAnswers {
  import opened Text
  import opened Evaluation
  import opened Ledger
  import opened LedgerInvariant
  import opened LedgerHistory
  import opened LedgerStore
  import opened LedgerOutcomes
  import opened RunIdentities
  import LedgerFinal

  // ---------------------------------------------------------------- The worker's own check of a result

  /** A metric the worker lets through: it has a name, a state and a rationale; its arithmetic is not looked at. */
  predicate NamedMetric(m: Metric) {
    m.name != OtherMetric("") && m.state != OtherMetricState("") && !Blank(m.rationale)
  }

  predicate WorkerAccepts(result: TerminalCaseResult) {
    ConsistentContent(result) && forall m | m in result.metrics :: NamedMetric(m)
  }

  method ValidateTerminalCaseResult(result: TerminalCaseResult) returns (ok: bool)
    ensures ok <==> WorkerAccepts(result)
  {
    if !ConsistentContent(result) {
      return false;
    }
    for index := 0 to |result.metrics|
      invariant forall i | 0 <= i < index :: NamedMetric(result.metrics[i])
    {
      if !NamedMetric(result.metrics[index]) {
        assert result.metrics[index] in result.metrics;
        return false;
      }
    }
    ok := true;
  }

  /** The processor's outcome goes to the store as a completion; None is a processor error. */
  predicate Offered(outcome: Option<TerminalCaseResult>) {
    outcome.Some? && WorkerAccepts(outcome.value)
  }

  function FailureCode(outcome: Option<TerminalCaseResult>): string {
    if outcome.None? then "execution_retryable" else "invalid_execution_result"
  }

  /** The store call a claim gets once it is processed. */
  function Answer(claim: ClaimedCase, outcome: Option<TerminalCaseResult>, maxAttempts: int): Event {
    if Offered(outcome) then CompleteEvent(claim, outcome.value)
    else ReleaseEvent(claim, FailureCode(outcome), maxAttempts)
  }

  ghost predicate Answers(e: Event, claim: ClaimedCase) {
    (e.CompleteEvent? || e.ReleaseEvent?) && e.claim == claim
  }

  // ---------------------------------------------------------------- Where the two checks differ

  /** The store's demands beyond the worker's: sound arithmetic, all ten components under the run's policy, evidence in the snapshot. */
  ghost predicate StoreDemands(catalog: Catalog, db: Db, claim: ClaimedCase, result: TerminalCaseResult)
    requires claim.runID in db.runs
  {
    && (forall m | m in result.metrics :: ValidMetric(m))
    && StorableMetrics(result, db.runs[claim.runID].key.scoringPolicyVersion)
    && StorableEvidence(catalog, claim, result.actualEvidence)
    && (result.actualEvidence != [] ==> claim.snapshotID == db.runs[claim.runID].key.snapshotID)
    && (!TerminalFailure(result.state) ==> result.safeFailureCode == "")
  }

  lemma CompletionSucceedsExactly(catalog: Catalog, db: Db, claim: ClaimedCase, result: TerminalCaseResult)
    requires ValidClaim(claim) && HoldsLease(db, claim) && ClaimNamesItsRun(db, claim)
    ensures Complete(catalog, db, claim, result).1 == Done <==>
              && ValidTerminalResult(result) && StorableResult(catalog, db, claim, result)
              && Finalize(WithTerminalCase(db, claim, result), claim.runID).Some?
    ensures Complete(catalog, db, claim, result).1 != Done ==> Complete(catalog, db, claim, result) == (db, Rejected)
  {
  }

  // ---------------------------------------------------------------- Which answers the store takes

  /** Should no case of the run be open any more, its ten sums fit the integer columns. */
  ghost predicate Fits(db: Db, r: Uuid)
    requires r in db.runs
  {
    AllTerminal(db, r) ==> LedgerFinal.SumsFit(RunMetrics(db, r), db.runs[r].key.scoringPolicyVersion)
  }

  lemma FinalizesWhenItFits(catalog: Catalog, db: Db, r: Uuid)
    requires BeforeFinalize(catalog, db, r)
    ensures Finalize(db, r).Some? <==> Fits(db, r)
  {
    OpenOrTerminal(catalog, db, r);
    if AllTerminal(db, r) {
      LedgerFinal.FinalizeFailsExactlyOnOverflow(catalog, db, r);
    }
  }

  /**
   A release under a live lease, with an attempt limit that fits its column, is rejected exactly when it
   settles the last open case of a run whose sums do not fit.
   */
  lemma ReleaseRejectedOnlyOnOverflow(catalog: Catalog, db: Db, claim: ClaimedCase, failureCode: string, maxAttempts: int)
    requires Inv(catalog, db) && HoldsLease(db, claim) && ClaimNamesItsRun(db, claim)
    requires ValidClaim(claim) && !Blank(failureCode) && maxAttempts >= 1
    ensures var (after, status) := ReleaseForRetry(db, claim, failureCode, maxAttempts);
            && (status == Rejected <==>
                  maxAttempts > MAX_INT32 ||
                  (db.cases[claim.id].attempts >= maxAttempts && !Fits(WithExhaustedCase(db, claim, failureCode), claim.runID)))
            && (status != Rejected ==> status == Done) && (status == Rejected ==> after == db)
  {
    assert CaseOk(catalog, db, claim.id);
    if db.cases[claim.id].attempts >= maxAttempts {
      var mid := WithExhaustedCase(db, claim, failureCode);
      ExhaustedCaseOk(catalog, db, claim, failureCode);
      ReplacedBeforeFinalize(catalog, db, claim.id, mid);
      FinalizesWhenItFits(catalog, mid, claim.runID);
    } else {
      var mid := db.(cases := db.cases[claim.id := ReleasedRow(db.cases[claim.id])]);
      assert claim.id in InState(mid, claim.runID, Pending);
    }
  }

  /** A completion under a live lease is taken exactly when it meets the store's demands and the run's sums fit. */
  lemma CompletionTakenExactly(catalog: Catalog, db: Db, claim: ClaimedCase, result: TerminalCaseResult)
    requires Inv(catalog, db) && HoldsLease(db, claim) && ClaimNamesItsRun(db, claim) && ValidClaim(claim)
    requires WorkerAccepts(result)
    ensures var (after, status) := Complete(catalog, db, claim, result);
            && (status == Done <==>
                  StoreDemands(catalog, db, claim, result) && Fits(WithTerminalCase(db, claim, result), claim.runID))
            && (status != Done ==> status == Rejected && after == db)
  {
    assert CaseOk(catalog, db, claim.id);
    CompletionSucceedsExactly(catalog, db, claim, result);
    if StoreDemands(catalog, db, claim, result) {
      var mid := WithTerminalCase(db, claim, result);
      CompletedCaseOk(catalog, db, claim, result);
      ReplacedBeforeFinalize(catalog, db, claim.id, mid);
      FinalizesWhenItFits(catalog, mid, claim.runID);
    }
  }

  /** Nothing but its question can make the claim invalid. */
  predicate WellFormed(claim: ClaimedCase) {
    ValidClaim(claim) <==> !Blank(claim.question)
  }

  /** What is refused whoever holds the lease: no question, unsound arithmetic, or an attempt limit beyond its column. */
  ghost predicate Malformed(claim: ClaimedCase, outcome: Option<TerminalCaseResult>, maxAttempts: int) {
    || Blank(claim.question)
    || if Offered(outcome) then exists m :: m in outcome.value.metrics && !ValidMetric(m) else maxAttempts > MAX_INT32
  }

  /**
   What the store asks of one answer under its lease: of a completion the store's demands and sums that
   fit, of a release only that the sums fit should it settle the run's last open case.
   */
  ghost predicate Acceptable(catalog: Catalog, db: Db, claim: ClaimedCase, outcome: Option<TerminalCaseResult>, maxAttempts: int) {
    && HoldsLease(db, claim) && ClaimNamesItsRun(db, claim) && !Malformed(claim, outcome, maxAttempts)
    && if Offered(outcome) then
         StoreDemands(catalog, db, claim, outcome.value) && Fits(WithTerminalCase(db, claim, outcome.value), claim.runID)
       else
         db.cases[claim.id].attempts >= maxAttempts ==> Fits(WithExhaustedCase(db, claim, FailureCode(outcome)), claim.runID)
  }

  /** The store refuses an answer that is malformed, or not acceptable under its lease. */
  ghost predicate Refused(catalog: Catalog, db: Db, claim: ClaimedCase, outcome: Option<TerminalCaseResult>, maxAttempts: int) {
    Malformed(claim, outcome, maxAttempts) || (HoldsLease(db, claim) && !Acceptable(catalog, db, claim, outcome, maxAttempts))
  }

  /** Each answer is done, refused, or finds its lease lost, and only a done one changes anything. */
  lemma AnswerTakenExactly(catalog: Catalog, db: Db, claim: ClaimedCase, outcome: Option<TerminalCaseResult>, maxAttempts: int)
    requires Inv(catalog, db) && (HoldsLease(db, claim) ==> ClaimNamesItsRun(db, claim)) && WellFormed(claim) && maxAttempts >= 1
    ensures var (after, status) := Apply(catalog, db, Answer(claim, outcome, maxAttempts));
            && (status == Done <==> Acceptable(catalog, db, claim, outcome, maxAttempts))
            && (status == Rejected <==> Refused(catalog, db, claim, outcome, maxAttempts))
            && (status != Done ==> after == db)
  {
    if Offered(outcome) {
      OfferTakenExactly(catalog, db, claim, outcome.value, maxAttempts);
    } else {
      ReleaseTakenExactly(catalog, db, claim, outcome, maxAttempts);
    }
  }

  lemma OfferTakenExactly(catalog: Catalog, db: Db, claim: ClaimedCase, result: TerminalCaseResult, maxAttempts: int)
    requires Inv(catalog, db) && (HoldsLease(db, claim) ==> ClaimNamesItsRun(db, claim)) && WellFormed(claim) && WorkerAccepts(result)
    ensures var (after, status) := Apply(catalog, db, Answer(claim, Some(result), maxAttempts));
            && (status == Done <==> Acceptable(catalog, db, claim, Some(result), maxAttempts))
            && (status == Rejected <==> Refused(catalog, db, claim, Some(result), maxAttempts))
            && (status != Done ==> after == db)
  {
    assert Apply(catalog, db, Answer(claim, Some(result), maxAttempts)) == Complete(catalog, db, claim, result);
    assert ValidTerminalResult(result) <==> !exists m :: m in result.metrics && !ValidMetric(m);
    if ValidClaim(claim) && HoldsLease(db, claim) {
      CompletionTakenExactly(catalog, db, claim, result);
    }
  }

  lemma ReleaseTakenExactly(catalog: Catalog, db: Db, claim: ClaimedCase, outcome: Option<TerminalCaseResult>, maxAttempts: int)
    requires Inv(catalog, db) && (HoldsLease(db, claim) ==> ClaimNamesItsRun(db, claim)) && WellFormed(claim)
    requires !Offered(outcome) && maxAttempts >= 1
    ensures var (after, status) := Apply(catalog, db, Answer(claim, outcome, maxAttempts));
            && (status == Done <==> Acceptable(catalog, db, claim, outcome, maxAttempts))
            && (status == Rejected <==> Refused(catalog, db, claim, outcome, maxAttempts))
            && (status != Done ==> after == db)
  {
    assert Apply(catalog, db, Answer(claim, outcome, maxAttempts)) == ReleaseForRetry(db, claim, FailureCode(outcome), maxAttempts);
    CodesAreNotBlank(outcome);
    if ValidClaim(claim) && HoldsLease(db, claim) {
      ReleaseRejectedOnlyOnOverflow(catalog, db, claim, FailureCode(outcome), maxAttempts);
    }
  }

  /** An answer that is done is stored: an accepted result as it is, anything else as one more turn or, at the limit, a failure. */
  lemma AnswersAreStored(catalog: Catalog, db: Db, claim: ClaimedCase, outcome: Option<TerminalCaseResult>, maxAttempts: int)
    requires Inv(catalog, db) && Apply(catalog, db, Answer(claim, outcome, maxAttempts)).1 == Done
    ensures claim.id in db.cases && db.cases[claim.id].runID in db.runs
    ensures var after := Apply(catalog, db, Answer(claim, outcome, maxAttempts)).0;
            var row := db.cases[claim.id];
            && claim.id in after.cases && OthersUntouched(db, after, claim.id, row.runID)
            && (if outcome.Some? && WorkerAccepts(outcome.value) then
                  HoldsAnswer(db, after, claim.id, outcome.value, db.runs[row.runID].key.scoringPolicyVersion)
                else if row.attempts < maxAttempts then
                  Requeued(row, after.cases[claim.id])
                else
                  GivenUp(row, after.cases[claim.id], if outcome.None? then "execution_retryable" else "invalid_execution_result"))
  {
    if Offered(outcome) {
      CompletionStoresResult(catalog, db, claim, outcome.value);
      CompletionDone(catalog, db, claim, outcome.value);
    } else {
      ReleaseStoresOutcome(catalog, db, claim, FailureCode(outcome), maxAttempts);
    }
  }

  lemma CodesAreNotBlank(outcome: Option<TerminalCaseResult>)
    ensures !Blank(FailureCode(outcome))
  {
    assert !IsSpace("execution_retryable"[0]) && !IsSpace("invalid_execution_result"[0]);
  }

  // ---------------------------------------------------------------- Claims handed out

  /** What every reachable ledger is. */
  ghost predicate Sound(catalog: Catalog, db: Db) {
    Inv(catalog, db) && Named(db)
  }

  lemma ReachableLedgersAreSound(catalog: Catalog, history: seq<Event>)
    ensures Sound(catalog, Exec(catalog, EMPTY, history))
  {
    InitialInvariant(catalog);
    EveryHistoryKeepsInvariant(catalog, EMPTY, history);
    EveryHistoryKeepsNames(catalog, EMPTY, history);
  }

  /** Claims handed out by a sound ledger. */
  ghost predicate Handed(catalog: Catalog, leased: Db, ids: seq<Uuid>, claims: seq<ClaimedCase>, firstToken: nat, expiresAt: nat) {
    Sound(catalog, leased) && ClaimsDescribe(catalog, leased, ids, claims, firstToken, expiresAt) && firstToken >= 1 && expiresAt >= 1
  }

  /** Claims handed out by a sound store are valid as soon as their question is not blank. */
  lemma FreshClaimsAreWellFormed(
    catalog: Catalog, leased: Db, ids: seq<Uuid>, claims: seq<ClaimedCase>, firstToken: nat, expiresAt: nat, i: nat)
    requires Handed(catalog, leased, ids, claims, firstToken, expiresAt) && i < |claims|
    ensures WellFormed(claims[i])
  {
    assert claims[i] == ClaimRecord(catalog, leased, ids[i], firstToken + i, expiresAt);
    assert CaseOk(catalog, leased, ids[i]);
    assert RunOk(leased, leased.cases[ids[i]].runID);
  }

  /** No two claims of a batch are for one case. */
  lemma FreshClaimsDiffer(
    catalog: Catalog, leased: Db, ids: seq<Uuid>, claims: seq<ClaimedCase>, firstToken: nat, expiresAt: nat)
    requires ClaimsDescribe(catalog, leased, ids, claims, firstToken, expiresAt)
    ensures forall i, j | 0 <= i < j < |claims| :: claims[i].id != claims[j].id
  {
    forall i, j | 0 <= i < j < |claims| ensures claims[i].id != claims[j].id {
      assert claims[i].leaseToken == firstToken + i && HoldsLease(leased, claims[i]);
      assert claims[j].leaseToken == firstToken + j && HoldsLease(leased, claims[j]);
    }
  }

  /** Claims handed out by the store name their run, its corpus and its snapshot. */
  lemma FreshClaimsNameTheirRun(
    catalog: Catalog, leased: Db, ids: seq<Uuid>, claims: seq<ClaimedCase>, firstToken: nat, expiresAt: nat, i: nat)
    requires Inv(catalog, leased) && ClaimsDescribe(catalog, leased, ids, claims, firstToken, expiresAt) && i < |claims|
    ensures HoldsLease(leased, claims[i]) && ClaimNamesItsRun(leased, claims[i])
    ensures claims[i].snapshotID == leased.runs[claims[i].runID].key.snapshotID
  {
    assert claims[i] == ClaimRecord(catalog, leased, ids[i], firstToken + i, expiresAt) && HoldsLease(leased, claims[i]);
    assert CaseOk(catalog, leased, claims[i].id);
  }

  /** A sound ledger stays sound when a batch is claimed from it. */
  lemma ClaimKeepsSound(catalog: Catalog, before: Db, claim: Event)
    ensures Sound(catalog, before) ==> Sound(catalog, Apply(catalog, before, claim).0) && before.nextToken >= 1
  {
    if Sound(catalog, before) {
      ApplyKeepsInvariant(catalog, before, claim);
      CallKeepsNames(catalog, before, claim);
    }
  }

  // ---------------------------------------------------------------- Single answers within a history

  /** What call number n of a history reported. */
  ghost function StatusAt(catalog: Catalog, db: Db, history: seq<Event>, n: nat): Status
    requires n < |history|
  {
    Apply(catalog, Exec(catalog, db, history[..n]), history[n]).1
  }

  lemma ExecOneMore(catalog: Catalog, db: Db, history: seq<Event>, n: nat)
    requires n < |history|
    ensures Exec(catalog, db, history[..n + 1]) == Apply(catalog, Exec(catalog, db, history[..n]), history[n]).0
  {
    assert history[..n + 1][..n] == history[..n];
  }

  /**
   In any history, whoever else makes calls: once the store has not rejected a claim's answer,
   the claim's lease is gone for good.
   */
  lemma AnsweredLeaseIsGone(catalog: Catalog, db: Db, history: seq<Event>, n: nat, claim: ClaimedCase)
    requires Inv(catalog, db) && n < |history| && claim.id in db.cases && claim.leaseToken < db.nextToken
    requires Answers(history[n], claim) && StatusAt(catalog, db, history, n) != Rejected
    ensures !HoldsLease(Exec(catalog, db, history), claim)
  {
    AnswerTakesTheLease(catalog, db, history, n, claim);
    LeaseStaysGone(catalog, db, history, n + 1, claim);
  }

  lemma LeaseStaysGone(catalog: Catalog, db: Db, history: seq<Event>, n: nat, claim: ClaimedCase)
    requires n <= |history| && claim.id in db.cases && claim.leaseToken < db.nextToken
    requires !Carries(Exec(catalog, db, history[..n]), claim.id, claim.leaseToken)
    ensures !HoldsLease(Exec(catalog, db, history), claim)
  {
    CasesStay(catalog, db, history[..n], claim.id);
    SupersededTokenStaysSuperseded(catalog, Exec(catalog, db, history[..n]), history[n..], claim.id, claim.leaseToken);
    ExecSplit(catalog, db, history[..n], history[n..]);
    assert history[..n] + history[n..] == history;
  }

  lemma AnswerTakesTheLease(catalog: Catalog, db: Db, history: seq<Event>, n: nat, claim: ClaimedCase)
    requires Inv(catalog, db) && n < |history| && claim.id in db.cases
    requires Answers(history[n], claim) && StatusAt(catalog, db, history, n) != Rejected
    ensures !Carries(Exec(catalog, db, history[..n + 1]), claim.id, claim.leaseToken)
  {
    EveryHistoryKeepsInvariant(catalog, db, history[..n]);
    CasesStay(catalog, db, history[..n], claim.id);
    ExecOneMore(catalog, db, history, n);
    AnswerSupersedes(catalog, Exec(catalog, db, history[..n]), history[n], claim);
  }

  lemma AnswerSupersedes(catalog: Catalog, db: Db, e: Event, claim: ClaimedCase)
    requires Inv(catalog, db) && claim.id in db.cases && Answers(e, claim) && Apply(catalog, db, e).1 != Rejected
    ensures !Carries(Apply(catalog, db, e).0, claim.id, claim.leaseToken)
  {
    assert CaseOk(catalog, db, claim.id);
    if Carries(db, claim.id, claim.leaseToken) {
      assert HoldsLease(db, claim);
      MovesSupersedeTheToken(catalog, db, e, claim.id, claim.leaseToken);
    } else {
      EveryCallMovesCases(catalog, db, e, claim.id);
    }
  }

  // ---------------------------------------------------------------- A batch among other workers

  /** One batch: its claims, what processing each gave, and the calls other workers make before each answer. */
  datatype Batch = Batch(
    claims: seq<ClaimedCase>, outcomes: seq<Option<TerminalCaseResult>>, maxAttempts: int, others: seq<seq<Event>>)

  ghost predicate Sized(b: Batch) {
    |b.claims| == |b.outcomes| == |b.others|
  }

  function AnswerAt(b: Batch, i: nat): (e: Event)
    requires i < |b.claims| == |b.outcomes|
  {
    Answer(b.claims[i], b.outcomes[i], b.maxAttempts)
  }

  /** All calls the store sees up to the first n answers. */
  ghost function Turns(b: Batch, n: nat): seq<Event>
    requires Sized(b) && n <= |b.claims|
  {
    if n == 0 then [] else Turns(b, n - 1) + b.others[n - 1] + [AnswerAt(b, n - 1)]
  }

  /** The ledger that answer i meets. */
  ghost function AtTurn(catalog: Catalog, leased: Db, b: Batch, i: nat): Db
    requires Sized(b) && i < |b.claims|
  {
    Exec(catalog, leased, Turns(b, i) + b.others[i])
  }

  ghost function TurnStatus(catalog: Catalog, leased: Db, b: Batch, i: nat): Status
    requires Sized(b) && i < |b.claims|
  {
    Apply(catalog, AtTurn(catalog, leased, b, i), AnswerAt(b, i)).1
  }

  ghost predicate NoneRejected(catalog: Catalog, leased: Db, b: Batch, count: int)
    requires Sized(b) && count <= |b.claims|
  {
    forall i {:trigger TurnStatus(catalog, leased, b, i)} | 0 <= i < count :: TurnStatus(catalog, leased, b, i) != Rejected
  }

  /** The first answered claims are answered in order; the only rejection, if any, is the last one and ends the batch. */
  ghost predicate AnsweredUpTo(catalog: Catalog, leased: Db, b: Batch, answered: nat, failed: bool, after: Db)
    requires Sized(b)
  {
    && answered <= |b.claims| && after == Exec(catalog, leased, Turns(b, answered))
    && (if failed then answered >= 1 && TurnStatus(catalog, leased, b, answered - 1) == Rejected else answered == |b.claims|)
    && NoneRejected(catalog, leased, b, if failed then answered - 1 else answered)
  }

  lemma TurnsOneMore(catalog: Catalog, leased: Db, b: Batch, i: nat)
    requires Sized(b) && i < |b.claims|
    ensures Exec(catalog, leased, Turns(b, i + 1)) == Apply(catalog, AtTurn(catalog, leased, b, i), AnswerAt(b, i)).0
  {
    var before := Turns(b, i) + b.others[i];
    assert Turns(b, i + 1) == before + [AnswerAt(b, i)];
    assert (before + [AnswerAt(b, i)])[..|before|] == before;
  }

  /** Later turns continue earlier ones. */
  lemma {:induction false} TurnsContinue(b: Batch, i: nat, n: nat)
    requires Sized(b) && i <= n <= |b.claims|
    ensures |Turns(b, i)| <= |Turns(b, n)| && Turns(b, n)[..|Turns(b, i)|] == Turns(b, i)
  {
    if i < n {
      TurnsContinue(b, i, n - 1);
    }
  }

  lemma EndOfPrefix(whole: seq<Event>, upTo: seq<Event>, before: seq<Event>, e: Event)
    requires upTo == before + [e] && |upTo| <= |whole| && whole[..|upTo|] == upTo
    ensures |before| < |whole| && whole[..|before|] == before && whole[|before|] == e
  {
    assert whole[..|before|] == whole[..|upTo|][..|before|] && whole[|before|] == whole[..|upTo|][|before|];
  }

  /** Answer i stands in the history where its turn is. */
  lemma AnswerStands(b: Batch, i: nat, n: nat, before: seq<Event>)
    requires Sized(b) && i < n <= |b.claims| && before == Turns(b, i) + b.others[i]
    ensures |before| < |Turns(b, n)| && Turns(b, n)[..|before|] == before && Turns(b, n)[|before|] == AnswerAt(b, i)
  {
    TurnsContinue(b, i + 1, n);
    var whole, upTo := Turns(b, n), Turns(b, i + 1);
    assert upTo == before + [AnswerAt(b, i)];
    EndOfPrefix(whole, upTo, before, AnswerAt(b, i));
  }

  // ---------------------------------------------------------------- Which leases survive a history

  /** No call of the history moves the case. */
  ghost predicate Undisturbed(catalog: Catalog, leased: Db, history: seq<Event>, c: Uuid) {
    history != [] ==>
      var earlier := history[..|history| - 1];
      && Undisturbed(catalog, leased, earlier, c)
      && MoveOf(catalog, Exec(catalog, leased, earlier), history[|history| - 1], c) == Same
  }

  /** A claim keeps its lease through a history exactly when no call moves its case, and then its row is as it was. */
  lemma {:induction false} LeaseSurvivesExactly(catalog: Catalog, leased: Db, history: seq<Event>, claim: ClaimedCase)
    requires Inv(catalog, leased) && HoldsLease(leased, claim) && claim.leaseToken < leased.nextToken
    ensures claim.id in Exec(catalog, leased, history).cases
    ensures HoldsLease(Exec(catalog, leased, history), claim) <==> Undisturbed(catalog, leased, history, claim.id)
    ensures HoldsLease(Exec(catalog, leased, history), claim) ==>
              Exec(catalog, leased, history).cases[claim.id] == leased.cases[claim.id]
  {
    if history != [] {
      var earlier, last := history[..|history| - 1], history[|history| - 1];
      LeaseSurvivesExactly(catalog, leased, earlier, claim);
      EveryHistoryKeepsInvariant(catalog, leased, earlier);
      CasesStay(catalog, leased, earlier, claim.id);
      LeaseSurvivesCall(catalog, Exec(catalog, leased, earlier), last, claim);
    }
  }

  lemma LeaseSurvivesCall(catalog: Catalog, db: Db, e: Event, claim: ClaimedCase)
    requires Inv(catalog, db) && claim.id in db.cases && claim.leaseToken < db.nextToken
    ensures var after := Apply(catalog, db, e).0;
            && claim.id in after.cases
            && (HoldsLease(after, claim) <==> HoldsLease(db, claim) && MoveOf(catalog, db, e, claim.id) == Same)
            && (HoldsLease(after, claim) ==> after.cases[claim.id] == db.cases[claim.id])
  {
    EveryCallMovesCases(catalog, db, e, claim.id);
  }

  /** Every run keeps its key and experiment through a history. */
  lemma {:induction false} HistoryKeepsIdentity(catalog: Catalog, db: Db, history: seq<Event>, r: Uuid)
    requires r in db.runs
    ensures SameIdentity(db, Exec(catalog, db, history), r)
  {
    if history != [] {
      var before := Exec(catalog, db, history[..|history| - 1]);
      HistoryKeepsIdentity(catalog, db, history[..|history| - 1], r);
      IdentitySurvives(catalog, before, history[|history| - 1]);
      assert SameIdentity(before, Exec(catalog, db, history), r);
    }
  }

  /** Under a surviving lease the claim still names its run. */
  lemma SurvivingClaimNamesItsRun(catalog: Catalog, leased: Db, history: seq<Event>, claim: ClaimedCase)
    requires Inv(catalog, leased) && HoldsLease(leased, claim) && ClaimNamesItsRun(leased, claim) && claim.leaseToken < leased.nextToken
    ensures HoldsLease(Exec(catalog, leased, history), claim) ==> ClaimNamesItsRun(Exec(catalog, leased, history), claim)
  {
    LeaseSurvivesExactly(catalog, leased, history, claim);
    HistoryKeepsIdentity(catalog, leased, history, claim.runID);
  }

  /** The claim still holds its lease, and its case can be claimed again exactly from the expiry on. */
  ghost predicate KeepsLease(catalog: Catalog, after: Db, claim: ClaimedCase, expiresAt: nat) {
    HoldsLease(after, claim) && forall t: nat :: Claimable(catalog, after, claim.id, t) <==> expiresAt <= t
  }

  /** Whether a claim keeps its lease through a history is decided by the calls that move its case. */
  lemma KeptExactly(
    catalog: Catalog, leased: Db, history: seq<Event>, ids: seq<Uuid>, claims: seq<ClaimedCase>, firstToken: nat, expiresAt: nat, i: nat)
    requires Handed(catalog, leased, ids, claims, firstToken, expiresAt) && i < |claims|
    ensures var after := Exec(catalog, leased, history);
            if Undisturbed(catalog, leased, history, claims[i].id) then KeepsLease(catalog, after, claims[i], expiresAt)
            else !HoldsLease(after, claims[i])
  {
    FreshClaimsNameTheirRun(catalog, leased, ids, claims, firstToken, expiresAt, i);
    assert claims[i] == ClaimRecord(catalog, leased, ids[i], firstToken + i, expiresAt);
    assert CaseOk(catalog, leased, claims[i].id);
    LeaseSurvivesExactly(catalog, leased, history, claims[i]);
    EveryHistoryKeepsInvariant(catalog, leased, history);
    if HoldsLease(Exec(catalog, leased, history), claims[i]) {
      LiveLeaseClaimable(catalog, Exec(catalog, leased, history), claims[i], expiresAt);
    }
  }

  lemma LiveLeaseClaimable(catalog: Catalog, db: Db, claim: ClaimedCase, expiresAt: nat)
    requires Inv(catalog, db) && HoldsLease(db, claim) && db.cases[claim.id].lease.value.expiresAt == expiresAt
    ensures KeepsLease(catalog, db, claim, expiresAt)
  {
    assert CaseOk(catalog, db, claim.id);
    LeasedCaseIsInRunningRun(catalog, db, claim);
  }

  // ---------------------------------------------------------------- How a batch ends

  /** The store refuses answer i at its turn. */
  ghost predicate RefusedAt(catalog: Catalog, leased: Db, b: Batch, i: int)
    requires Sized(b) && 0 <= i < |b.claims|
  {
    Refused(catalog, AtTurn(catalog, leased, b, i), b.claims[i], b.outcomes[i], b.maxAttempts)
  }

  /** How claim i stands after the batch: answered and gone, or kept exactly if no call moved its case. */
  ghost predicate StandsAs(catalog: Catalog, leased: Db, b: Batch, expiresAt: nat, answered: nat, failed: bool, after: Db, i: int)
    requires Sized(b) && 0 <= i < |b.claims| && answered <= |b.claims|
  {
    if failed && i >= answered - 1 && Undisturbed(catalog, leased, Turns(b, answered), b.claims[i].id)
    then KeepsLease(catalog, after, b.claims[i], expiresAt) else !HoldsLease(after, b.claims[i])
  }

  /**
   Whatever other workers do meanwhile, a batch fails exactly when some answer is refused at its turn, at
   the first such answer. No claim answered before that keeps its lease; that claim and every later one
   keeps it, until it expires, exactly if no call has moved its case.
   */
  ghost predicate BatchOutcome(catalog: Catalog, leased: Db, b: Batch, expiresAt: nat, answered: nat, failed: bool, after: Db)
    requires Sized(b)
  {
    && (failed <==> exists i :: 0 <= i < |b.claims| && RefusedAt(catalog, leased, b, i))
    && answered <= |b.claims|
    && (failed ==>
          && 1 <= answered && RefusedAt(catalog, leased, b, answered - 1)
          && forall i | 0 <= i < answered - 1 :: !RefusedAt(catalog, leased, b, i))
    && forall i | 0 <= i < |b.claims| :: StandsAs(catalog, leased, b, expiresAt, answered, failed, after, i)
  }

  /** An answer is rejected exactly when it is refused at its turn, and then changes nothing. */
  lemma TurnTakenExactly(
    catalog: Catalog, leased: Db, ids: seq<Uuid>, firstToken: nat, expiresAt: nat, b: Batch, i: nat)
    requires Sized(b) && Handed(catalog, leased, ids, b.claims, firstToken, expiresAt) && b.maxAttempts >= 1 && i < |b.claims|
    ensures TurnStatus(catalog, leased, b, i) == Rejected <==> RefusedAt(catalog, leased, b, i)
    ensures TurnStatus(catalog, leased, b, i) == Done <==>
              Acceptable(catalog, AtTurn(catalog, leased, b, i), b.claims[i], b.outcomes[i], b.maxAttempts)
    ensures TurnStatus(catalog, leased, b, i) != Done ==>
              Exec(catalog, leased, Turns(b, i + 1)) == AtTurn(catalog, leased, b, i)
  {
    var history := Turns(b, i) + b.others[i];
    FreshClaimsNameTheirRun(catalog, leased, ids, b.claims, firstToken, expiresAt, i);
    FreshClaimsAreWellFormed(catalog, leased, ids, b.claims, firstToken, expiresAt, i);
    assert CaseOk(catalog, leased, b.claims[i].id);
    SurvivingClaimNamesItsRun(catalog, leased, history, b.claims[i]);
    EveryHistoryKeepsInvariant(catalog, leased, history);
    AnswerTakenExactly(catalog, AtTurn(catalog, leased, b, i), b.claims[i], b.outcomes[i], b.maxAttempts);
    TurnsOneMore(catalog, leased, b, i);
  }

  /** Once its answer is not rejected, a claim's lease is gone at every later point of the batch. */
  lemma AnsweredClaimsLoseTheirLease(
    catalog: Catalog, leased: Db, ids: seq<Uuid>, firstToken: nat, expiresAt: nat, b: Batch, i: nat, n: nat)
    requires Sized(b) && Handed(catalog, leased, ids, b.claims, firstToken, expiresAt)
    requires i < n <= |b.claims| && TurnStatus(catalog, leased, b, i) != Rejected
    ensures !HoldsLease(Exec(catalog, leased, Turns(b, n)), b.claims[i])
  {
    FreshClaimsNameTheirRun(catalog, leased, ids, b.claims, firstToken, expiresAt, i);
    assert CaseOk(catalog, leased, b.claims[i].id);
    AnswerStands(b, i, n, Turns(b, i) + b.others[i]);
    AnsweredLeaseIsGone(catalog, leased, Turns(b, n), |Turns(b, i) + b.others[i]|, b.claims[i]);
  }

  /** A batch handed out by a sound ledger ends as its answers decide, whatever other workers do meanwhile. */
  lemma BatchesEndAsAnswered(
    catalog: Catalog, leased: Db, ids: seq<Uuid>, firstToken: nat, expiresAt: nat, b: Batch, answered: nat, failed: bool, after: Db)
    requires Sized(b) && Handed(catalog, leased, ids, b.claims, firstToken, expiresAt) && b.maxAttempts >= 1
    requires AnsweredUpTo(catalog, leased, b, answered, failed, after)
    ensures BatchOutcome(catalog, leased, b, expiresAt, answered, failed, after)
  {
    var taken := if failed then answered - 1 else answered;
    forall i: nat | i < taken
      ensures !RefusedAt(catalog, leased, b, i) && StandsAs(catalog, leased, b, expiresAt, answered, failed, after, i)
    {
      assert TurnStatus(catalog, leased, b, i) != Rejected;
      TurnTakenExactly(catalog, leased, ids, firstToken, expiresAt, b, i);
      AnsweredClaimsLoseTheirLease(catalog, leased, ids, firstToken, expiresAt, b, i, answered);
    }
    if failed {
      TurnTakenExactly(catalog, leased, ids, firstToken, expiresAt, b, taken);
      LaterClaimsStand(catalog, leased, ids, firstToken, expiresAt, b, answered);
    }
  }

  lemma LaterClaimsStand(
    catalog: Catalog, leased: Db, ids: seq<Uuid>, firstToken: nat, expiresAt: nat, b: Batch, answered: nat)
    requires Sized(b) && Handed(catalog, leased, ids, b.claims, firstToken, expiresAt) && 1 <= answered <= |b.claims|
    ensures forall i | answered - 1 <= i < |b.claims| ::
              StandsAs(catalog, leased, b, expiresAt, answered, true, Exec(catalog, leased, Turns(b, answered)), i)
  {
    forall i: nat | answered - 1 <= i < |b.claims|
      ensures StandsAs(catalog, leased, b, expiresAt, answered, true, Exec(catalog, leased, Turns(b, answered)), i)
    {
      KeptExactly(catalog, leased, Turns(b, answered), ids, b.claims, firstToken, expiresAt, i);
    }
  }

  lemma HandedBatchEnds(
    catalog: Catalog, leased: Db, ids: seq<Uuid>, firstToken: nat, expiresAt: nat, b: Batch, answered: nat, failed: bool, after: Db)
    requires Sized(b) && b.maxAttempts >= 1 && AnsweredUpTo(catalog, leased, b, answered, failed, after)
    ensures Handed(catalog, leased, ids, b.claims, firstToken, expiresAt) ==>
              BatchOutcome(catalog, leased, b, expiresAt, answered, failed, after)
  {
    if Handed(catalog, leased, ids, b.claims, firstToken, expiresAt) {
      BatchesEndAsAnswered(catalog, leased, ids, firstToken, expiresAt, b, answered, failed, after);
    }
  }

  /** A batch that ends without an error leaves none of its leases behind. */
  lemma CleanBatchLeavesNoLease(
    catalog: Catalog, leased: Db, ids: seq<Uuid>, firstToken: nat, expiresAt: nat, b: Batch, after: Db)
    requires Sized(b) && Handed(catalog, leased, ids, b.claims, firstToken, expiresAt)
    requires AnsweredUpTo(catalog, leased, b, |b.claims|, false, after)
    ensures forall i | 0 <= i < |b.claims| :: !HoldsLease(after, b.claims[i])
  {
    forall i: nat | i < |b.claims| ensures !HoldsLease(after, b.claims[i]) {
      assert TurnStatus(catalog, leased, b, i) != Rejected;
      AnsweredClaimsLoseTheirLease(catalog, leased, ids, firstToken, expiresAt, b, i, |b.claims|);
    }
  }

  // ---------------------------------------------------------------- Before the expiry nobody else moves a leased case

  /** A call that neither claims at or after the expiry nor answers under the claim's token. */
  predicate Timely(e: Event, claim: ClaimedCase, expiresAt: nat) {
    match e
    case CreateRunEvent(_, _) => true
    case ClaimEvent(_, now, _, _, _) => now < expiresAt
    case CompleteEvent(other, _) => other.id != claim.id || other.leaseToken != claim.leaseToken
    case ReleaseEvent(other, _, _) => other.id != claim.id || other.leaseToken != claim.leaseToken
  }

  lemma TimelyCallMovesNothing(catalog: Catalog, db: Db, e: Event, claim: ClaimedCase, expiresAt: nat)
    requires HoldsLease(db, claim) && db.cases[claim.id].lease.value.expiresAt == expiresAt && Timely(e, claim, expiresAt)
    ensures MoveOf(catalog, db, e, claim.id) == Same
  {
    if e.ClaimEvent? && e.batch >= 1 {
      SelectionIsCandidates(db, Candidates(catalog, db, e.locked, e.now), e.batch);
    }
  }

  lemma {:induction false} TimelyHistoryDisturbsNothing(
    catalog: Catalog, leased: Db, history: seq<Event>, claim: ClaimedCase, expiresAt: nat)
    requires Inv(catalog, leased) && HoldsLease(leased, claim) && claim.leaseToken < leased.nextToken
    requires leased.cases[claim.id].lease.value.expiresAt == expiresAt
    requires forall e | e in history :: Timely(e, claim, expiresAt)
    ensures Undisturbed(catalog, leased, history, claim.id)
  {
    if history != [] {
      var earlier, last := history[..|history| - 1], history[|history| - 1];
      TimelyHistoryDisturbsNothing(catalog, leased, earlier, claim, expiresAt);
      LeaseSurvivesExactly(catalog, leased, earlier, claim);
      assert last in history;
      TimelyCallMovesNothing(catalog, Exec(catalog, leased, earlier), last, claim, expiresAt);
    }
  }

  /** Other workers neither claim at or after the expiry nor answer under the tokens of the batch. */
  ghost predicate TimelyOthers(b: Batch, expiresAt: nat)
    requires Sized(b)
  {
    forall i, j, e | 0 <= i < |b.claims| && 0 <= j < |b.claims| && e in b.others[j] :: Timely(e, b.claims[i], expiresAt)
  }

  lemma {:induction false} EarlierTurnsAreTimely(b: Batch, expiresAt: nat, i: nat, n: nat)
    requires Sized(b) && TimelyOthers(b, expiresAt) && n <= i < |b.claims|
    requires forall j, k | 0 <= j < k < |b.claims| :: b.claims[j].id != b.claims[k].id
    ensures forall e | e in Turns(b, n) + b.others[n] :: Timely(e, b.claims[i], expiresAt)
  {
    if n > 0 {
      EarlierTurnsAreTimely(b, expiresAt, i, n - 1);
      assert Timely(AnswerAt(b, n - 1), b.claims[i], expiresAt);
    }
  }

  /** As long as other workers are timely, every claim still holds its lease at its turn: no answer finds it lost. */
  lemma TimelyTurnsHoldTheirLease(
    catalog: Catalog, leased: Db, ids: seq<Uuid>, firstToken: nat, expiresAt: nat, b: Batch, i: nat)
    requires Sized(b) && Handed(catalog, leased, ids, b.claims, firstToken, expiresAt) && b.maxAttempts >= 1 && i < |b.claims|
    requires TimelyOthers(b, expiresAt)
    ensures HoldsLease(AtTurn(catalog, leased, b, i), b.claims[i]) && TurnStatus(catalog, leased, b, i) != LeaseLost
  {
    FreshClaimsNameTheirRun(catalog, leased, ids, b.claims, firstToken, expiresAt, i);
    FreshClaimsDiffer(catalog, leased, ids, b.claims, firstToken, expiresAt);
    assert b.claims[i] == ClaimRecord(catalog, leased, ids[i], firstToken + i, expiresAt);
    assert CaseOk(catalog, leased, b.claims[i].id);
    EarlierTurnsAreTimely(b, expiresAt, i, i);
    TimelyHistoryDisturbsNothing(catalog, leased, Turns(b, i) + b.others[i], b.claims[i], expiresAt);
    LeaseSurvivesExactly(catalog, leased, Turns(b, i) + b.others[i], b.claims[i]);
    TurnTakenExactly(catalog, leased, ids, firstToken, expiresAt, b, i);
  }

  /**
   As long as other workers are timely, a failed batch leaves the refused claim and every later one their
   leases until they expire.
   */
  lemma TimelyBatchKeepsLeases(
    catalog: Catalog, leased: Db, ids: seq<Uuid>, firstToken: nat, expiresAt: nat, b: Batch, answered: nat, after: Db, i: nat)
    requires Sized(b) && Handed(catalog, leased, ids, b.claims, firstToken, expiresAt) && b.maxAttempts >= 1
    requires AnsweredUpTo(catalog, leased, b, answered, true, after) && TimelyOthers(b, expiresAt)
    requires answered - 1 <= i < |b.claims|
    ensures KeepsLease(catalog, after, b.claims[i], expiresAt)
  {
    var last := answered - 1;
    FreshClaimsNameTheirRun(catalog, leased, ids, b.claims, firstToken, expiresAt, i);
    FreshClaimsDiffer(catalog, leased, ids, b.claims, firstToken, expiresAt);
    assert b.claims[i] == ClaimRecord(catalog, leased, ids[i], firstToken + i, expiresAt);
    assert CaseOk(catalog, leased, b.claims[i].id);
    TurnTakenExactly(catalog, leased, ids, firstToken, expiresAt, b, last);
    EarlierTurnsAreTimely(b, expiresAt, i, last);
    TimelyHistoryDisturbsNothing(catalog, leased, Turns(b, last) + b.others[last], b.claims[i], expiresAt);
    KeptExactly(catalog, leased, Turns(b, last) + b.others[last], ids, b.claims, firstToken, expiresAt, i);
  }
}
