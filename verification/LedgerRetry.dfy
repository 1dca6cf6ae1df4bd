/** Bounded retries: how often a case can be claimed, returned and moved at all. */
module LedgerRetry {
  import opened Text
  import opened Evaluation
  import opened Ledger
  import opened LedgerInvariant
  import opened LedgerHistory
  import opened Sums
  import LedgerFinal

  /** Every release in the history uses the same attempt limit. */
  predicate FixedLimit(history: seq<Event>, limit: int) {
    forall e | e in history :: e.ReleaseEvent? ==> e.maxAttempts == limit
  }

  /** How many calls of the history made the given move on case c. */
  ghost function MoveCount(catalog: Catalog, db: Db, history: seq<Event>, c: Uuid, move: Move): nat {
    if history == [] then 0
    else
      var earlier := history[..|history| - 1];
      MoveCount(catalog, db, earlier, c, move)
      + if MoveOf(catalog, Exec(catalog, db, earlier), history[|history| - 1], c) == move then 1 else 0
  }

  lemma WithCasesKeys(db: Db, request: CreateRunRequest, catalog: Catalog, now: nat, c: Uuid)
    requires ValidRequest(request) && StorableRequest(catalog, db, request)
    requires c in CreateRun(catalog, db, request, now).0.cases && c !in db.cases
    ensures var row := CreateRun(catalog, db, request, now).0.cases[c];
            row.state.Pending? && row.attempts == 0 && row.lease.None?
  {
    var after := CreatedRows(catalog, db, request, now);
  }

  /** New cases start pending and unclaimed; only CreateRun adds them. */
  lemma NewCasesArePending(catalog: Catalog, db: Db, e: Event, c: Uuid)
    requires c !in db.cases && c in Apply(catalog, db, e).0.cases
    ensures var row := Apply(catalog, db, e).0.cases[c]; row.state.Pending? && row.attempts == 0 && row.lease.None?
    ensures MoveOf(catalog, db, e, c) == Same
  {
    if e.CreateRunEvent? {
      WithCasesKeys(db, e.request, catalog, e.now, c);
    } else {
      OtherCallsAddNoCases(catalog, db, e);
    }
  }

  lemma AbsentCasesDoNotMove(catalog: Catalog, db: Db, e: Event, c: Uuid)
    requires c !in db.cases
    ensures MoveOf(catalog, db, e, c) == Same
  {
  }

  lemma {:induction false} AbsentCasesNeverMoved(catalog: Catalog, db: Db, history: seq<Event>, c: Uuid, move: Move)
    requires c !in Exec(catalog, db, history).cases && move != Same
    ensures MoveCount(catalog, db, history, c, move) == 0
  {
    if history != [] {
      var earlier, last := history[..|history| - 1], history[|history| - 1];
      var before := Exec(catalog, db, earlier);
      if c in before.cases {
        EveryCallMovesCases(catalog, before, last, c);
      }
      AbsentCasesDoNotMove(catalog, before, last, c);
      AbsentCasesNeverMoved(catalog, db, earlier, c, move);
    }
  }

  /** What holds of one case after a history with a fixed limit: claims counted, returns bounded, pending below the limit. */
  ghost predicate RetryOk(row: CaseRow, limit: int, taken: nat, returned: nat) {
    && taken == row.attempts
    && returned + (if row.state.Pending? then 0 else 1) <= row.attempts
    && returned <= limit - 1
    && (row.state.Pending? ==> row.attempts < limit)
  }

  /**
   From the empty ledger, with a fixed attempt limit: the attempt counter is the number of
   claims, a pending case has been claimed fewer times than the limit, and a case returns to
   pending at most limit - 1 times. Expired leases may be reclaimed freely.
   */
  lemma {:induction false} RetriesAreBounded(catalog: Catalog, history: seq<Event>, limit: int, c: Uuid)
    requires limit >= 1 && FixedLimit(history, limit)
    requires c in Exec(catalog, EMPTY, history).cases
    ensures RetryOk(Exec(catalog, EMPTY, history).cases[c], limit,
                    MoveCount(catalog, EMPTY, history, c, Taken), MoveCount(catalog, EMPTY, history, c, Returned))
  {
    if history != [] {
      var earlier, last := history[..|history| - 1], history[|history| - 1];
      var before := Exec(catalog, EMPTY, earlier);
      assert last in history;
      if c in before.cases {
        assert FixedLimit(earlier, limit);
        RetriesAreBounded(catalog, earlier, limit, c);
        EveryCallMovesCases(catalog, before, last, c);
      } else {
        NewCasesArePending(catalog, before, last, c);
        AbsentCasesNeverMoved(catalog, EMPTY, earlier, c, Taken);
        AbsentCasesNeverMoved(catalog, EMPTY, earlier, c, Returned);
      }
    }
  }

  // ---------------------------------------------------------------- Reclaimed leases

  /** The limit is not a bound on claims: a claim exceeds it exactly when it reclaims a lease that had used the limit up. */
  lemma ClaimExceedsLimitExactlyOnReclaim(catalog: Catalog, history: seq<Event>, limit: int, e: Event, c: Uuid)
    requires limit >= 1 && FixedLimit(history, limit)
    requires var db := Exec(catalog, EMPTY, history); c in db.cases && MoveOf(catalog, db, e, c) == Taken
    ensures var db := Exec(catalog, EMPTY, history);
            c in Apply(catalog, db, e).0.cases
            && (Apply(catalog, db, e).0.cases[c].attempts > limit <==> db.cases[c].state.Leased? && db.cases[c].attempts >= limit)
  {
    RetriesAreBounded(catalog, history, limit, c);
    EveryCallMovesCases(catalog, Exec(catalog, EMPTY, history), e, c);
  }

  lemma {:induction false} SelectionTakesAll(db: Db, candidates: set<Uuid>, limit: nat, c: Uuid)
    requires candidates <= db.cases.Keys && |candidates| <= limit && c in candidates
    ensures c in Selection(db, candidates, limit)
    decreases limit
  {
    var first := First(db, candidates);
    assert first in candidates by { FirstWitness(db, candidates); }
    if c != first {
      SelectionTakesAll(db, candidates - {first}, limit - 1, c);
    }
  }

  /** A large enough unhindered selection holds exactly the claimable cases. */
  lemma WideSelection(catalog: Catalog, db: Db, now: nat, d: Uuid)
    ensures d in Selected(catalog, db, now, |db.cases|, {}) <==> d in db.cases && Claimable(catalog, db, d, now)
  {
    var candidates := Candidates(catalog, db, {}, now);
    assert |candidates| <= |db.cases| by {
      assert db.cases.Keys == candidates + (db.cases.Keys - candidates);
    }
    SelectionIsCandidates(db, candidates, |db.cases|);
    if d in candidates {
      SelectionTakesAll(db, candidates, |db.cases|, d);
    }
  }

  /** A large enough unhindered claim takes every claimable case, exactly when every counter can be raised. */
  lemma WideClaimTakesEveryCandidate(catalog: Catalog, db: Db, workerID: string, now: nat, period: int, c: Uuid)
    requires !Blank(workerID) && period > 0 && c in db.cases && Claimable(catalog, db, c, now)
    ensures MoveOf(catalog, db, ClaimEvent(workerID, now, period, |db.cases|, {}), c) == Taken <==>
              forall d | d in db.cases && Claimable(catalog, db, d, now) :: db.cases[d].attempts < MAX_INT32
  {
    var selected := Selected(catalog, db, now, |db.cases|, {});
    forall d ensures d in selected <==> d in db.cases && Claimable(catalog, db, d, now) {
      WideSelection(catalog, db, now, d);
    }
    assert c in db.cases.Keys && |db.cases| >= 1;
  }

  /** A claim that finds every other row locked. */
  ghost function SoleClaim(db: Db, c: Uuid, workerID: string, now: nat, period: int): Event {
    ClaimEvent(workerID, now, period, 1, db.cases.Keys - {c})
  }

  lemma SoleClaimSelects(catalog: Catalog, db: Db, c: Uuid, now: nat)
    requires c in db.cases && Claimable(catalog, db, c, now)
    ensures Selected(catalog, db, now, 1, db.cases.Keys - {c}) == [c]
  {
    assert Candidates(catalog, db, db.cases.Keys - {c}, now) == {c};
    SelectionIsCandidates(db, {c}, 1);
  }

  lemma OpenCaseIsClaimable(catalog: Catalog, db: Db, c: Uuid, now: nat)
    requires Inv(catalog, db) && c in db.cases && OpenCase(db.cases[c])
    requires db.cases[c].lease.Some? ==> db.cases[c].lease.value.expiresAt <= now
    ensures Claimable(catalog, db, c, now)
  {
    assert CaseOk(catalog, db, c);
    assert RunOk(db, db.cases[c].runID);
    assert c in CasesOf(db, db.cases[c].runID);
  }

  /** An open case whose lease has run out can be claimed exactly while its counter can be raised. */
  lemma OpenCasesStayClaimable(catalog: Catalog, db: Db, c: Uuid, workerID: string, period: int, now: nat)
    requires Inv(catalog, db) && c in db.cases && OpenCase(db.cases[c])
    requires !Blank(workerID) && period > 0
    requires db.cases[c].lease.Some? ==> db.cases[c].lease.value.expiresAt <= now
    ensures MoveOf(catalog, db, SoleClaim(db, c, workerID, now, period), c) == Taken <==> db.cases[c].attempts < MAX_INT32
  {
    OpenCaseIsClaimable(catalog, db, c, now);
    SoleClaimSelects(catalog, db, c, now);
  }

  /** No counter ever leaves its column. */
  lemma {:induction false} AttemptsFitTheColumn(catalog: Catalog, history: seq<Event>, c: Uuid)
    requires c in Exec(catalog, EMPTY, history).cases
    ensures Exec(catalog, EMPTY, history).cases[c].attempts <= MAX_INT32
  {
    if history != [] {
      var earlier, last := history[..|history| - 1], history[|history| - 1];
      var before := Exec(catalog, EMPTY, earlier);
      if c in before.cases {
        AttemptsFitTheColumn(catalog, earlier, c);
        EveryCallMovesCases(catalog, before, last, c);
      } else {
        NewCasesArePending(catalog, before, last, c);
      }
    }
  }

  /** The row of c is claimed once more and no other row is touched. */
  ghost predicate ClaimedAgain(db: Db, after: Db, c: Uuid) {
    && c in db.cases && after.cases.Keys == db.cases.Keys && OpenCase(after.cases[c])
    && (forall d | d in db.cases && d != c :: after.cases[d] == db.cases[d])
    && after.cases[c].createdAt == db.cases[c].createdAt
    && after.cases[c].attempts == db.cases[c].attempts + 1
  }

  lemma LoneClaim(db: Db, c: Uuid, workerID: string, expiresAt: nat)
    requires Leasable(db, c)
    ensures ClaimedAgain(db, ClaimAll(db, [c], workerID, expiresAt), c)
  {
    ghost var ids := [c];
    assert ids[..0] == [];
    assert ClaimAll(db, ids, workerID, expiresAt) == ClaimOne(db, c, workerID, expiresAt);
  }

  lemma SoleClaimTakes(catalog: Catalog, db: Db, c: Uuid, workerID: string, now: nat, period: int)
    requires c in db.cases && Claimable(catalog, db, c, now) && db.cases[c].attempts < MAX_INT32
    requires !Blank(workerID) && period > 0
    ensures Apply(catalog, db, SoleClaim(db, c, workerID, now, period)).0 == ClaimAll(db, [c], workerID, now + period)
  {
    SoleClaimSelects(catalog, db, c, now);
  }

  /** One more claim of an open case, once its lease has run out. */
  lemma OneMoreClaim(catalog: Catalog, db: Db, c: Uuid, workerID: string, period: int) returns (e: Event)
    requires Inv(catalog, db) && c in db.cases && OpenCase(db.cases[c]) && !Blank(workerID) && period > 0
    requires db.cases[c].attempts < MAX_INT32
    ensures e.ClaimEvent? && ClaimedAgain(db, Apply(catalog, db, e).0, c)
  {
    var row := db.cases[c];
    var now := if row.lease.Some? then row.lease.value.expiresAt else 0;
    e := SoleClaim(db, c, workerID, now, period);
    OpenCaseIsClaimable(catalog, db, c, now);
    SoleClaimTakes(catalog, db, c, workerID, now, period);
    LoneClaim(db, c, workerID, now + period);
  }

  /** The row of c after n more claims, the other rows as they were. */
  ghost predicate ClaimedMore(db: Db, after: Db, c: Uuid, n: nat) {
    && c in db.cases && after.cases.Keys == db.cases.Keys && OpenCase(after.cases[c])
    && (forall d | d in db.cases && d != c :: after.cases[d] == db.cases[d])
    && after.cases[c].createdAt == db.cases[c].createdAt
    && after.cases[c].attempts == db.cases[c].attempts + n
  }

  /** No attempt limit bounds the claims of a case whose workers never answer: reclaims go on until the counter's column is full. */
  lemma {:induction false} ReclaimsFillTheColumn(catalog: Catalog, db: Db, c: Uuid, workerID: string, period: int, n: nat)
    returns (history: seq<Event>)
    requires Inv(catalog, db) && c in db.cases && OpenCase(db.cases[c]) && !Blank(workerID) && period > 0
    requires db.cases[c].attempts + n <= MAX_INT32
    ensures |history| == n && forall e | e in history :: e.ClaimEvent?
    ensures ClaimedMore(db, Exec(catalog, db, history), c, n)
  {
    if n == 0 {
      history := [];
    } else {
      var earlier := ReclaimsFillTheColumn(catalog, db, c, workerID, period, n - 1);
      EveryHistoryKeepsInvariant(catalog, db, earlier);
      var e := OneMoreClaim(catalog, Exec(catalog, db, earlier), c, workerID, period);
      history := earlier + [e];
      assert history[..|history| - 1] == earlier;
    }
  }

  /** A claim whose first row has a full counter is rejected as a whole. */
  lemma FullCounterRejectsTheBatch(catalog: Catalog, db: Db, e: Event, c: Uuid)
    requires e.ClaimEvent? && c in db.cases && Claimable(catalog, db, c, e.now) && c !in e.locked
    requires (forall d | d in db.cases && d != c :: Before(db, c, d)) && db.cases[c].attempts >= MAX_INT32
    ensures Apply(catalog, db, e) == (db, Rejected)
  {
    if e.batch >= 1 {
      var candidates := Candidates(catalog, db, e.locked, e.now);
      assert c in candidates;
      FirstWitness(db, candidates);
      assert First(db, candidates) == c;
      assert Selected(catalog, db, e.now, e.batch, e.locked)[0] == c;
    }
  }

  /** A claim that finds row c unlocked, and its lease run out. */
  predicate ClaimFinds(db: Db, e: Event, c: Uuid)
    requires c in db.cases
  {
    e.ClaimEvent? && c !in e.locked && (db.cases[c].lease.Some? ==> db.cases[c].lease.value.expiresAt <= e.now)
  }

  /**
   The oldest case of a sound ledger, if no worker ever answers it, can be reclaimed until its counter is
   full; from then on every claim that comes after its expiry and finds it unlocked is rejected, whatever
   else is waiting.
   */
  lemma FullCounterBlocksTheQueue(catalog: Catalog, db: Db, c: Uuid, workerID: string, period: int) returns (history: seq<Event>)
    requires Inv(catalog, db) && c in db.cases && OpenCase(db.cases[c]) && !Blank(workerID) && period > 0
    requires forall d | d in db.cases && d != c :: Before(db, c, d)
    requires db.cases[c].attempts <= MAX_INT32
    ensures forall e | e in history :: e.ClaimEvent?
    ensures var after := Exec(catalog, db, history);
            && c in after.cases
            && forall e: Event | ClaimFinds(after, e, c) :: Apply(catalog, after, e) == (after, Rejected)
  {
    history := ReclaimsFillTheColumn(catalog, db, c, workerID, period, MAX_INT32 - db.cases[c].attempts);
    var after := Exec(catalog, db, history);
    EveryHistoryKeepsInvariant(catalog, db, history);
    forall d | d in after.cases && d != c ensures Before(after, c, d) { assert Before(db, c, d); }
    forall e: Event | ClaimFinds(after, e, c) ensures Apply(catalog, after, e) == (after, Rejected)
    {
      OpenCaseIsClaimable(catalog, after, c, e.now);
      FullCounterRejectsTheBatch(catalog, after, e, c);
    }
  }

  // ---------------------------------------------------------------- Termination without reclaims

  ghost predicate TakesPendingAt(catalog: Catalog, db: Db, history: seq<Event>, n: nat, c: Uuid)
    requires n < |history|
  {
    var before := Exec(catalog, db, history[..n]);
    MoveOf(catalog, before, history[n], c) == Taken ==> c in before.cases && before.cases[c].state.Pending?
  }

  /** Claims only ever take pending cases. */
  ghost predicate NoReclaim(catalog: Catalog, db: Db, history: seq<Event>) {
    forall n: nat, c: Uuid | n < |history| :: TakesPendingAt(catalog, db, history, n, c)
  }

  function Measure(row: CaseRow, limit: int): int {
    match row.state
    case Pending => 2 * (limit - row.attempts)
    case Leased => 2 * (limit - row.attempts) + 1
    case _ => 0
  }

  ghost function TotalMoves(catalog: Catalog, db: Db, history: seq<Event>, c: Uuid): nat {
    MoveCount(catalog, db, history, c, Taken) + MoveCount(catalog, db, history, c, Returned)
    + MoveCount(catalog, db, history, c, Settled)
  }

  lemma NoReclaimPrefix(catalog: Catalog, db: Db, history: seq<Event>)
    requires history != [] && NoReclaim(catalog, db, history)
    ensures NoReclaim(catalog, db, history[..|history| - 1])
  {
    var earlier := history[..|history| - 1];
    forall n: nat, c: Uuid | n < |earlier| ensures TakesPendingAt(catalog, db, earlier, n, c) {
      assert TakesPendingAt(catalog, db, history, n, c);
      assert earlier[..n] == history[..n] && earlier[n] == history[n];
    }
  }

  ghost predicate MeasureOk(row: CaseRow, limit: int, moves: nat) {
    && row.attempts <= limit && Measure(row, limit) >= 0
    && moves + Measure(row, limit) <= 2 * limit
  }

  lemma MoveLowersMeasure(db: Db, after: Db, c: Uuid, move: Move, limit: int, moves: nat)
    requires c in db.cases && Moved(db, after, c, move)
    requires MeasureOk(db.cases[c], limit, moves)
    requires db.cases[c].state.Pending? ==> db.cases[c].attempts < limit
    requires move == Taken ==> db.cases[c].state.Pending?
    ensures MeasureOk(after.cases[c], limit, moves + if move == Same then 0 else 1)
    ensures move != Same ==> Measure(after.cases[c], limit) < Measure(db.cases[c], limit)
  {
  }

  /**
   Without reclaims, moves of a case and its remaining measure never exceed twice the limit:
   each claim, return or settlement lowers the measure.
   */
  lemma {:induction false} MovesAreBounded(catalog: Catalog, history: seq<Event>, limit: int, c: Uuid)
    requires limit >= 1 && FixedLimit(history, limit) && NoReclaim(catalog, EMPTY, history)
    requires c in Exec(catalog, EMPTY, history).cases
    ensures MeasureOk(Exec(catalog, EMPTY, history).cases[c], limit, TotalMoves(catalog, EMPTY, history, c))
  {
    if history != [] {
      var earlier, last := history[..|history| - 1], history[|history| - 1];
      var before := Exec(catalog, EMPTY, earlier);
      NoReclaimPrefix(catalog, EMPTY, history);
      if c in before.cases {
        assert FixedLimit(earlier, limit);
        MovesAreBounded(catalog, earlier, limit, c);
        RetriesAreBounded(catalog, earlier, limit, c);
        EveryCallMovesCases(catalog, before, last, c);
        assert TakesPendingAt(catalog, EMPTY, history, |history| - 1, c);
        MoveLowersMeasure(before, Exec(catalog, EMPTY, history), c, MoveOf(catalog, before, last, c), limit,
                          TotalMoves(catalog, EMPTY, earlier, c));
      } else {
        NewCasesArePending(catalog, before, last, c);
        AbsentCasesNeverMoved(catalog, EMPTY, earlier, c, Taken);
        AbsentCasesNeverMoved(catalog, EMPTY, earlier, c, Returned);
        AbsentCasesNeverMoved(catalog, EMPTY, earlier, c, Settled);
      }
    }
  }

  /** Without reclaims a case is terminal after at most twice the limit moves. */
  lemma CasesTerminateWithinTwiceTheLimit(catalog: Catalog, history: seq<Event>, limit: int, c: Uuid)
    requires limit >= 1 && FixedLimit(history, limit) && NoReclaim(catalog, EMPTY, history)
    requires c in Exec(catalog, EMPTY, history).cases
    ensures TotalMoves(catalog, EMPTY, history, c) <= 2 * limit
    ensures TotalMoves(catalog, EMPTY, history, c) == 2 * limit ==> TerminalCase(Exec(catalog, EMPTY, history).cases[c].state)
  {
    MovesAreBounded(catalog, history, limit, c);
    RetriesAreBounded(catalog, history, limit, c);
    InitialInvariant(catalog);
    EveryHistoryKeepsInvariant(catalog, EMPTY, history);
    assert CaseOk(catalog, Exec(catalog, EMPTY, history), c);
  }

  /** The moves of each case of a run. */
  ghost function MovesByCase(catalog: Catalog, history: seq<Event>, r: Uuid): map<Uuid, int> {
    map c | c in CasesOf(Exec(catalog, EMPTY, history), r) :: TotalMoves(catalog, EMPTY, history, c)
  }

  /**
   Without reclaims the cases of a run make at most twice the limit moves each, all together; a run
   whose cases have made them all is finished and has its ten aggregates.
   */
  lemma RunsTerminateWithinTwiceTheLimit(catalog: Catalog, history: seq<Event>, limit: int, r: Uuid)
    requires limit >= 1 && FixedLimit(history, limit) && NoReclaim(catalog, EMPTY, history)
    requires r in Exec(catalog, EMPTY, history).runs
    ensures var db := Exec(catalog, EMPTY, history);
            && Sum(MovesByCase(catalog, history, r)) <= 2 * limit * |CasesOf(db, r)|
            && (Sum(MovesByCase(catalog, history, r)) == 2 * limit * |CasesOf(db, r)| ==>
                  TerminalRun(db.runs[r].state) && r in db.aggregates && |db.aggregates[r]| == 10)
  {
    var db, moves := Exec(catalog, EMPTY, history), MovesByCase(catalog, history, r);
    forall c | c in moves
      ensures moves[c] <= 2 * limit && (moves[c] == 2 * limit ==> TerminalCase(db.cases[c].state))
    {
      CasesTerminateWithinTwiceTheLimit(catalog, history, limit, c);
    }
    assert moves.Keys == CasesOf(db, r) && |moves| == |moves.Keys|;
    SumBounded(moves, 2 * limit);
    InitialInvariant(catalog);
    EveryHistoryKeepsInvariant(catalog, EMPTY, history);
    LedgerFinal.RunStateFollowsCases(catalog, db, r);
    if TerminalRun(db.runs[r].state) {
      LedgerFinal.FinishedRunHasTenAggregates(catalog, db, r);
    }
  }
}
