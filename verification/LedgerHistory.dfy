/** Safety and progress of the run ledger over whole histories of repository calls. */
module LedgerHistory {
  import opened Text
  import opened Evaluation
  import opened Ledger
  import opened LedgerInvariant

  // ---------------------------------------------------------------- What one call does to one case

  datatype Move = Same | Taken | Returned | Settled

  /** How a call moves a case: by the call's arguments and whether it succeeds. */
  ghost function MoveOf(catalog: Catalog, db: Db, e: Event, c: Uuid): Move {
    if Apply(catalog, db, e).1 != Done then Same
    else
      match e
      case CreateRunEvent(_, _) => Same
      case ClaimEvent(_, now, _, batch, locked) => if batch >= 1 && c in Selected(catalog, db, now, batch, locked) then Taken else Same
      case CompleteEvent(claim, _) => if claim.id == c then Settled else Same
      case ReleaseEvent(claim, _, maxAttempts) =>
        if claim.id != c then Same
        else if c in db.cases && db.cases[c].attempts >= maxAttempts then Settled else Returned
  }

  ghost predicate ChildrenSame(db: Db, after: Db, c: Uuid) {
    && (c in after.metrics <==> c in db.metrics) && (c in db.metrics ==> after.metrics[c] == db.metrics[c])
    && (c in after.evidence <==> c in db.evidence) && (c in db.evidence ==> after.evidence[c] == db.evidence[c])
  }

  ghost predicate Moved(db: Db, after: Db, c: Uuid, move: Move)
    requires c in db.cases
  {
    && c in after.cases && after.nextToken >= db.nextToken
    && var row, next := db.cases[c], after.cases[c];
    && next.runID == row.runID && next.datasetCaseID == row.datasetCaseID
    && (match move
        case Same => next == row && ChildrenSame(db, after, c)
        case Taken =>
          && OpenCase(row) && next.state.Leased? && next.attempts == row.attempts + 1 && next.lease.Some?
          && db.nextToken <= next.lease.value.token < after.nextToken && ChildrenSame(db, after, c)
        case Returned => row.state.Leased? && next.state.Pending? && next.attempts == row.attempts && next.lease.None? && ChildrenSame(db, after, c)
        case Settled => row.state.Leased? && TerminalCase(next.state) && next.attempts == row.attempts && next.lease.None?)
  }

  lemma BatchMoves(db: Db, ids: seq<Uuid>, workerID: string, expiresAt: nat, c: Uuid)
    requires DistinctLeasable(db, ids) && c in db.cases
    ensures Moved(db, ClaimAll(db, ids, workerID, expiresAt), c, if c in ids then Taken else Same)
  {
    ClaimAllRows(db, ids, workerID, expiresAt);
    if c in ids {
      var i :| 0 <= i < |ids| && ids[i] == c;
      assert Leasable(db, ids[i]);
    }
  }

  lemma ClaimMoves(catalog: Catalog, db: Db, e: Event, c: Uuid)
    requires e.ClaimEvent? && c in db.cases
    ensures Moved(db, Apply(catalog, db, e).0, c, MoveOf(catalog, db, e, c))
  {
    if Claim(catalog, db, e.workerID, e.now, e.period, e.batch, e.locked).1 == Done {
      SelectedAreLeasable(catalog, db, e.now, e.batch, e.locked);
      BatchMoves(db, Selected(catalog, db, e.now, e.batch, e.locked), e.workerID, e.now + e.period, c);
    }
  }

  lemma FinalizeKeepsRows(db: Db, r: Uuid)
    requires Finalize(db, r).Some?
    ensures var after := Finalize(db, r).value;
            && after.cases == db.cases && after.metrics == db.metrics && after.evidence == db.evidence
            && after.nextToken == db.nextToken && after.expected == db.expected && after.runs.Keys >= db.runs.Keys
  {
  }

  lemma CompleteMoves(catalog: Catalog, db: Db, e: Event, c: Uuid)
    requires e.CompleteEvent? && c in db.cases
    ensures Moved(db, Apply(catalog, db, e).0, c, MoveOf(catalog, db, e, c))
  {
    if Apply(catalog, db, e).1 == Done {
      FinalizeKeepsRows(WithTerminalCase(db, e.claim, e.result), e.claim.runID);
    }
  }

  lemma ReleaseMoves(catalog: Catalog, db: Db, e: Event, c: Uuid)
    requires e.ReleaseEvent? && c in db.cases
    ensures Moved(db, Apply(catalog, db, e).0, c, MoveOf(catalog, db, e, c))
  {
    if Apply(catalog, db, e).1 == Done {
      if db.cases[e.claim.id].attempts >= e.maxAttempts {
        FinalizeKeepsRows(WithExhaustedCase(db, e.claim, e.failureCode), e.claim.runID);
      } else {
        FinalizeKeepsRows(db.(cases := db.cases[e.claim.id := ReleasedRow(db.cases[e.claim.id])]), db.cases[e.claim.id].runID);
      }
    }
  }

  lemma CreateMoves(catalog: Catalog, db: Db, e: Event, c: Uuid)
    requires e.CreateRunEvent? && c in db.cases
    ensures Moved(db, Apply(catalog, db, e).0, c, MoveOf(catalog, db, e, c))
  {
    if ValidRequest(e.request) && StorableRequest(catalog, db, e.request) {
      var after := CreatedRows(catalog, db, e.request, e.now);
    }
  }

  /** Every call leaves a case alone or takes it, returns it or settles it, as its arguments say. */
  lemma EveryCallMovesCases(catalog: Catalog, db: Db, e: Event, c: Uuid)
    requires c in db.cases
    ensures Moved(db, Apply(catalog, db, e).0, c, MoveOf(catalog, db, e, c))
  {
    match e
    case CreateRunEvent(_, _) => CreateMoves(catalog, db, e, c);
    case ClaimEvent(_, _, _, _, _) => ClaimMoves(catalog, db, e, c);
    case CompleteEvent(_, _) => CompleteMoves(catalog, db, e, c);
    case ReleaseEvent(_, _, _) => ReleaseMoves(catalog, db, e, c);
  }

  lemma OtherCallsAddNoCases(catalog: Catalog, db: Db, e: Event)
    requires !e.CreateRunEvent?
    ensures Apply(catalog, db, e).0.cases.Keys == db.cases.Keys
  {
    if Apply(catalog, db, e).1 == Done {
      match e
      case ClaimEvent(_, _, _, _, _) =>
      case CompleteEvent(claim, result) => FinalizeKeepsRows(WithTerminalCase(db, claim, result), claim.runID);
      case ReleaseEvent(claim, failureCode, maxAttempts) =>
        if db.cases[claim.id].attempts >= maxAttempts {
          FinalizeKeepsRows(WithExhaustedCase(db, claim, failureCode), claim.runID);
        } else {
          FinalizeKeepsRows(db.(cases := db.cases[claim.id := ReleasedRow(db.cases[claim.id])]), db.cases[claim.id].runID);
        }
    }
  }

  // ---------------------------------------------------------------- Terminal cases never change

  /** Once terminal, a case keeps its row, its evidence and its metric rows for ever. */
  lemma {:induction false} TerminalCaseIsImmutable(catalog: Catalog, db: Db, history: seq<Event>, c: Uuid)
    requires c in db.cases && TerminalCase(db.cases[c].state)
    ensures var after := Exec(catalog, db, history);
            c in after.cases && after.cases[c] == db.cases[c] && ChildrenSame(db, after, c)
  {
    if history != [] {
      var before := Exec(catalog, db, history[..|history| - 1]);
      TerminalCaseIsImmutable(catalog, db, history[..|history| - 1], c);
      EveryCallMovesCases(catalog, before, history[|history| - 1], c);
    }
  }

  lemma {:induction false} ExecSplit(catalog: Catalog, db: Db, first: seq<Event>, second: seq<Event>)
    ensures Exec(catalog, db, first + second) == Exec(catalog, Exec(catalog, db, first), second)
  {
    if second == [] {
      assert first + second == first;
    } else {
      var earlier := second[..|second| - 1];
      ExecSplit(catalog, db, first, earlier);
      assert (first + second)[..|first + second| - 1] == first + earlier;
    }
  }

  /** Call number n of the history settles case c: a successful completion or a release at the attempt limit. */
  ghost predicate SettlesAt(catalog: Catalog, db: Db, history: seq<Event>, n: nat, c: Uuid)
    requires n < |history|
  {
    MoveOf(catalog, Exec(catalog, db, history[..n]), history[n], c) == Settled
  }

  lemma SettledCaseIsTerminal(catalog: Catalog, db: Db, history: seq<Event>, m: nat, c: Uuid)
    requires c in db.cases && m < |history| && SettlesAt(catalog, db, history, m, c)
    ensures c in Exec(catalog, db, history[..m + 1]).cases && TerminalCase(Exec(catalog, db, history[..m + 1]).cases[c].state)
  {
    CasesStay(catalog, db, history[..m], c);
    EveryCallMovesCases(catalog, Exec(catalog, db, history[..m]), history[m], c);
    assert history[..m + 1][..m] == history[..m];
  }

  lemma TerminalStays(catalog: Catalog, db: Db, history: seq<Event>, m: nat, n: nat, c: Uuid)
    requires m <= n <= |history|
    requires c in Exec(catalog, db, history[..m]).cases && TerminalCase(Exec(catalog, db, history[..m]).cases[c].state)
    ensures c in Exec(catalog, db, history[..n]).cases && TerminalCase(Exec(catalog, db, history[..n]).cases[c].state)
  {
    TerminalCaseIsImmutable(catalog, Exec(catalog, db, history[..m]), history[m..n], c);
    ExecSplit(catalog, db, history[..m], history[m..n]);
    assert history[..m] + history[m..n] == history[..n];
  }

  /** Over any history at most one completion or terminal release of a case ever succeeds. */
  lemma CasesSettleOnce(catalog: Catalog, db: Db, history: seq<Event>, m: nat, n: nat, c: Uuid)
    requires c in db.cases && m < n < |history|
    requires SettlesAt(catalog, db, history, m, c)
    ensures !SettlesAt(catalog, db, history, n, c)
  {
    SettledCaseIsTerminal(catalog, db, history, m, c);
    TerminalStays(catalog, db, history, m + 1, n, c);
    EveryCallMovesCases(catalog, Exec(catalog, db, history[..n]), history[n], c);
  }

  lemma {:induction false} CasesStay(catalog: Catalog, db: Db, history: seq<Event>, c: Uuid)
    requires c in db.cases
    ensures c in Exec(catalog, db, history).cases
    ensures Exec(catalog, db, history).nextToken >= db.nextToken
  {
    if history != [] {
      CasesStay(catalog, db, history[..|history| - 1], c);
      EveryCallMovesCases(catalog, Exec(catalog, db, history[..|history| - 1]), history[|history| - 1], c);
    }
  }

  // ---------------------------------------------------------------- Fencing

  ghost predicate Carries(db: Db, c: Uuid, token: nat) {
    c in db.cases && db.cases[c].lease.Some? && db.cases[c].lease.value.token == token
  }

  /** A token the supply has passed and the case does not carry never comes back to the case. */
  lemma {:induction false} SupersededTokenStaysSuperseded(catalog: Catalog, db: Db, history: seq<Event>, c: Uuid, token: nat)
    requires c in db.cases && token < db.nextToken && !Carries(db, c, token)
    ensures !Carries(Exec(catalog, db, history), c, token)
  {
    if history != [] {
      var earlier := history[..|history| - 1];
      SupersededTokenStaysSuperseded(catalog, db, earlier, c, token);
      CasesStay(catalog, db, earlier, c);
      var before := Exec(catalog, db, earlier);
      EveryCallMovesCases(catalog, before, history[|history| - 1], c);
    }
  }

  /** Late calls under a superseded token change nothing and report the lost lease. */
  lemma SupersededCallsAreFenced(catalog: Catalog, db: Db, history: seq<Event>, claim: ClaimedCase)
    requires claim.id in db.cases && claim.leaseToken < db.nextToken && !Carries(db, claim.id, claim.leaseToken)
    requires ValidClaim(claim)
    ensures var later := Exec(catalog, db, history);
            && (forall result | ValidTerminalResult(result) :: Complete(catalog, later, claim, result) == (later, LeaseLost))
            && (forall code, limit | !Blank(code) && 1 <= limit <= MAX_INT32 :: ReleaseForRetry(later, claim, code, limit) == (later, LeaseLost))
  {
    SupersededTokenStaysSuperseded(catalog, db, history, claim.id, claim.leaseToken);
  }

  /** Taking, returning or settling a case each supersede the token it carried. */
  lemma MovesSupersedeTheToken(catalog: Catalog, db: Db, e: Event, c: Uuid, token: nat)
    requires Inv(catalog, db) && Carries(db, c, token)
    ensures var after := Apply(catalog, db, e).0;
            && token < after.nextToken
            && (Carries(after, c, token) <==> MoveOf(catalog, db, e, c) == Same)
  {
    assert CaseOk(catalog, db, c);
    EveryCallMovesCases(catalog, db, e, c);
  }

  // ---------------------------------------------------------------- Finished runs never change

  lemma {:induction false} ClaimAllKeepsFinishedRuns(db: Db, ids: seq<Uuid>, workerID: string, expiresAt: nat, r: Uuid)
    requires forall c | c in ids :: c in db.cases && db.cases[c].runID in db.runs
    requires r in db.runs && !db.runs[r].state.Queued?
    ensures ClaimAll(db, ids, workerID, expiresAt).runs[r] == db.runs[r]
  {
    if ids != [] {
      ClaimAllKeepsFinishedRuns(db, ids[..|ids| - 1], workerID, expiresAt, r);
    }
  }

  ghost predicate SameFinishedRun(db: Db, after: Db, r: Uuid) {
    && r in db.runs && r in after.runs && after.runs[r] == db.runs[r]
    && r in db.aggregates && r in after.aggregates && after.aggregates[r] == db.aggregates[r]
  }

  lemma BatchKeepsFinishedRun(db: Db, ids: seq<Uuid>, workerID: string, expiresAt: nat, r: Uuid)
    requires DistinctLeasable(db, ids) && r in db.runs && r in db.aggregates && TerminalRun(db.runs[r].state)
    ensures forall c | c in ids :: c in db.cases && db.cases[c].runID in db.runs
    ensures SameFinishedRun(db, ClaimAll(db, ids, workerID, expiresAt), r)
  {
    ClaimAllRows(db, ids, workerID, expiresAt);
    ClaimAllKeepsFinishedRuns(db, ids, workerID, expiresAt, r);
  }

  lemma ClaimKeepsFinishedRun(catalog: Catalog, db: Db, e: Event, r: Uuid)
    requires e.ClaimEvent? && r in db.runs && r in db.aggregates && TerminalRun(db.runs[r].state)
    ensures SameFinishedRun(db, Claim(catalog, db, e.workerID, e.now, e.period, e.batch, e.locked).0, r)
  {
    if Claim(catalog, db, e.workerID, e.now, e.period, e.batch, e.locked).1 == Done {
      SelectedAreLeasable(catalog, db, e.now, e.batch, e.locked);
      BatchKeepsFinishedRun(db, Selected(catalog, db, e.now, e.batch, e.locked), e.workerID, e.now + e.period, r);
    }
  }

  lemma FinalizeKeepsOtherRun(db: Db, run: Uuid, r: Uuid)
    requires Finalize(db, run).Some? && r in db.runs && r in db.aggregates && r != run
    ensures SameFinishedRun(db, Finalize(db, run).value, r)
  {
  }

  lemma CompleteKeepsOtherRun(catalog: Catalog, db: Db, claim: ClaimedCase, result: TerminalCaseResult, r: Uuid)
    requires r in db.runs && r in db.aggregates
    requires HoldsLease(db, claim) ==> db.cases[claim.id].runID != r
    ensures SameFinishedRun(db, Complete(catalog, db, claim, result).0, r)
  {
    if Complete(catalog, db, claim, result).1 == Done {
      FinalizeKeepsOtherRun(WithTerminalCase(db, claim, result), claim.runID, r);
    }
  }

  lemma ReleaseKeepsOtherRun(db: Db, claim: ClaimedCase, failureCode: string, maxAttempts: int, r: Uuid)
    requires r in db.runs && r in db.aggregates
    requires HoldsLease(db, claim) ==> db.cases[claim.id].runID != r
    ensures SameFinishedRun(db, ReleaseForRetry(db, claim, failureCode, maxAttempts).0, r)
  {
    if ReleaseForRetry(db, claim, failureCode, maxAttempts).1 == Done {
      if db.cases[claim.id].attempts >= maxAttempts {
        FinalizeKeepsOtherRun(WithExhaustedCase(db, claim, failureCode), claim.runID, r);
      } else {
        FinalizeKeepsOtherRun(db.(cases := db.cases[claim.id := ReleasedRow(db.cases[claim.id])]), db.cases[claim.id].runID, r);
      }
    }
  }

  lemma LeasedCaseIsInRunningRun(catalog: Catalog, db: Db, claim: ClaimedCase)
    requires Inv(catalog, db) && HoldsLease(db, claim)
    ensures db.cases[claim.id].runID in db.runs && db.runs[db.cases[claim.id].runID].state.Running?
  {
    assert CaseOk(catalog, db, claim.id);
  }

  /** A finished run keeps its state, its identity and its aggregate rows under every call. */
  lemma FinishedRunSurvivesCall(catalog: Catalog, db: Db, e: Event, r: Uuid)
    requires Inv(catalog, db) && r in db.runs && TerminalRun(db.runs[r].state)
    ensures SameFinishedRun(db, Apply(catalog, db, e).0, r)
  {
    assert r in db.aggregates by { assert RunOk(db, r); }
    match e
    case CreateRunEvent(_, _) =>
    case ClaimEvent(_, _, _, _, _) => ClaimKeepsFinishedRun(catalog, db, e, r);
    case CompleteEvent(claim, result) =>
      if HoldsLease(db, claim) {
        LeasedCaseIsInRunningRun(catalog, db, claim);
      }
      CompleteKeepsOtherRun(catalog, db, claim, result, r);
    case ReleaseEvent(claim, failureCode, maxAttempts) =>
      if HoldsLease(db, claim) {
        LeasedCaseIsInRunningRun(catalog, db, claim);
      }
      ReleaseKeepsOtherRun(db, claim, failureCode, maxAttempts, r);
  }

  /** Finalisation happens once: afterwards the run and its aggregates stay as written. */
  lemma {:induction false} FinishedRunIsImmutable(catalog: Catalog, db: Db, history: seq<Event>, r: Uuid)
    requires Inv(catalog, db) && r in db.runs && TerminalRun(db.runs[r].state)
    ensures SameFinishedRun(db, Exec(catalog, db, history), r)
  {
    if history == [] {
      assert RunOk(db, r);
    } else {
      var earlier := history[..|history| - 1];
      FinishedRunIsImmutable(catalog, db, earlier, r);
      EveryHistoryKeepsInvariant(catalog, db, earlier);
      FinishedRunSurvivesCall(catalog, Exec(catalog, db, earlier), history[|history| - 1], r);
    }
  }
}
