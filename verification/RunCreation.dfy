/** How a run's case set, its case-set hash and its expected evidence are fixed when the run is created. */
module RunCreation {
  import opened Text
  import opened Evaluation
  import opened Ledger
  import opened LedgerInvariant
  import opened LedgerStore
  import opened Comparison
  import opened LedgerComparison
  import LedgerHistory
  import LedgerOutcomes
  import RunIdentities
  import Scoring

  /** One dataset case as the creation query returns it, in position order. */
  datatype RunCaseIdentity = RunCaseIdentity(datasetCaseID: Uuid, position: int, expectedOutcome: ExpectedOutcome, checksum: string)

  datatype StartRunRequest = StartRunRequest(datasetRevisionID: Uuid, corpusID: Uuid, snapshotID: Uuid, experiment: Experiment)

  datatype ResolvedLocator = ResolvedLocator(
    expectedEvidenceID: Uuid, caseID: Uuid, sourceID: Uuid, sourceRevisionID: Uuid, documentID: Uuid, unitID: Uuid,
    canonicalLocator: string, displayLocator: string, contentSHA256: string)

  datatype PreflightResult = PreflightResult(corpusID: Uuid, datasetRevisionID: Uuid, snapshotID: Uuid, resolved: seq<ResolvedLocator>)

  // ---------------------------------------------------------------- The case-set hash

  function LineParts(item: RunCaseIdentity): seq<string> {
    [ItoaInt(item.position), UuidString(item.datasetCaseID), item.checksum]
  }

  function Line(item: RunCaseIdentity): string {
    Join(LineParts(item), ':')
  }

  function Lines(cases: seq<RunCaseIdentity>): seq<string> {
    seq(|cases|, i requires 0 <= i < |cases| => Line(cases[i]))
  }

  /** Lines with a line break after each. */
  function Terminated(lines: seq<string>): string {
    if lines == [] then "" else lines[0] + ['\n'] + Terminated(lines[1..])
  }

  /** What is hashed: one line per case. */
  function Preimage(cases: seq<RunCaseIdentity>): string {
    Terminated(Lines(cases))
  }

  lemma {:induction false} TerminatedAppend(lines: seq<string>, line: string)
    ensures Terminated(lines + [line]) == Terminated(lines) + line + ['\n']
  {
    if lines == [] {
      assert (lines + [line])[1..] == [];
    } else {
      TerminatedAppend(lines[1..], line);
      assert (lines + [line])[1..] == lines[1..] + [line];
    }
  }

  /** Lines without breaks are recovered from their terminated text. */
  lemma {:induction false} TerminatedInjective(a: seq<string>, b: seq<string>)
    requires forall i | 0 <= i < |a| :: '\n' !in a[i]
    requires forall i | 0 <= i < |b| :: '\n' !in b[i]
    requires Terminated(a) == Terminated(b)
    ensures a == b
  {
    if a != [] && b != [] {
      SplitPrefix(a[0], Terminated(a[1..]), '\n');
      SplitPrefix(b[0], Terminated(b[1..]), '\n');
      assert a[0] == Split(Terminated(a), '\n')[0] == b[0];
      assert Terminated(a[1..]) == Terminated(a)[|a[0]| + 1..];
      assert Terminated(b[1..]) == Terminated(b)[|b[0]| + 1..];
      TerminatedInjective(a[1..], b[1..]);
      assert a == [a[0]] + a[1..] && b == [b[0]] + b[1..];
    }
  }

  /** orderedCaseSetSHA256: lines are fed to the hash one by one. */
  method OrderedCaseSetSHA256(cases: seq<RunCaseIdentity>, sha: string -> string) returns (digest: string)
    ensures digest == sha(Preimage(cases))
  {
    var fed := "";
    ghost var lines := Lines(cases);
    for index := 0 to |cases|
      invariant fed == Terminated(lines[..index])
    {
      TerminatedAppend(lines[..index], lines[index]);
      assert lines[..index + 1] == lines[..index] + [lines[index]];
      fed := fed + Line(cases[index]) + ['\n'];
    }
    assert lines[..|cases|] == lines;
    digest := sha(fed);
  }

  predicate ChecksumsAreHashes(cases: seq<RunCaseIdentity>) {
    forall i | 0 <= i < |cases| :: IsSha256(cases[i].checksum)
  }

  lemma JoinThree(a: string, b: string, c: string, separator: char)
    ensures Join([a, b, c], separator) == a + [separator] + (b + [separator] + c)
    ensures forall x :: x in Join([a, b, c], separator) ==> x in a || x in b || x in c || x == separator
  {
    assert [a, b, c][1..] == [b, c] && [b, c][1..] == [c];
    assert Join([b, c], separator) == b + [separator] + c;
  }

  lemma PartsHaveNo(item: RunCaseIdentity, c: char)
    requires IsSha256(item.checksum) && !IsHex(c) && c != '-'
    ensures c !in ItoaInt(item.position) && c !in UuidString(item.datasetCaseID) && c !in item.checksum
  {
    UuidStringShape(item.datasetCaseID);
    ItoaIntHasNo(item.position, c);
  }

  lemma LineHasNoBreak(item: RunCaseIdentity)
    requires IsSha256(item.checksum)
    ensures forall i | 0 <= i < |LineParts(item)| :: ':' !in LineParts(item)[i]
    ensures '\n' !in Line(item)
  {
    PartsHaveNo(item, ':');
    PartsHaveNo(item, '\n');
    JoinThree(ItoaInt(item.position), UuidString(item.datasetCaseID), item.checksum, ':');
    forall x | x in Line(item) ensures x != '\n' {
      assert x in Join([ItoaInt(item.position), UuidString(item.datasetCaseID), item.checksum], ':');
    }
  }

  lemma LineInjective(a: RunCaseIdentity, b: RunCaseIdentity)
    requires IsSha256(a.checksum) && IsSha256(b.checksum) && Line(a) == Line(b)
    ensures a.position == b.position && a.datasetCaseID == b.datasetCaseID && a.checksum == b.checksum
  {
    LineHasNoBreak(a);
    LineHasNoBreak(b);
    JoinInjective(LineParts(a), LineParts(b), ':');
    assert LineParts(a)[0] == LineParts(b)[0] && LineParts(a)[1] == LineParts(b)[1] && LineParts(a)[2] == LineParts(b)[2];
    ItoaIntInjective(a.position, b.position);
    UuidStringOrder(a.datasetCaseID, b.datasetCaseID);
  }

  /** Equal preimages list the same cases in the same order. */
  lemma PreimageInjective(a: seq<RunCaseIdentity>, b: seq<RunCaseIdentity>)
    requires ChecksumsAreHashes(a) && ChecksumsAreHashes(b) && Preimage(a) == Preimage(b)
    ensures |a| == |b|
    ensures forall i | 0 <= i < |a| :: a[i].position == b[i].position && a[i].datasetCaseID == b[i].datasetCaseID && a[i].checksum == b[i].checksum
  {
    forall i | 0 <= i < |a| ensures '\n' !in Lines(a)[i] { LineHasNoBreak(a[i]); }
    forall i | 0 <= i < |b| ensures '\n' !in Lines(b)[i] { LineHasNoBreak(b[i]); }
    TerminatedInjective(Lines(a), Lines(b));
    assert |a| == |Lines(a)| == |Lines(b)| == |b|;
    forall i | 0 <= i < |a|
      ensures a[i].position == b[i].position && a[i].datasetCaseID == b[i].datasetCaseID && a[i].checksum == b[i].checksum
    {
      assert Lines(a)[i] == Line(a[i]) && Lines(b)[i] == Line(b[i]);
      LineInjective(a[i], b[i]);
    }
  }

  // ---------------------------------------------------------------- Run cases and expected evidence

  function RunCaseOf(item: RunCaseIdentity, id: Uuid): RunCase {
    RunCase(id, item.datasetCaseID, item.position, item.expectedOutcome)
  }

  function RunCasesOf(cases: seq<RunCaseIdentity>, ids: seq<Uuid>): seq<RunCase>
    requires |ids| == |cases|
  {
    seq(|cases|, i requires 0 <= i < |cases| => RunCaseOf(cases[i], ids[i]))
  }

  /** The run case of each dataset case; a later case takes over an identifier. */
  function CaseIDs(cases: seq<RunCaseIdentity>, ids: seq<Uuid>): map<Uuid, Uuid>
    requires |ids| == |cases|
  {
    if cases == [] then map[]
    else CaseIDs(cases[..|cases| - 1], ids[..|ids| - 1])[cases[|cases| - 1].datasetCaseID := ids[|ids| - 1]]
  }

  method MakeRunCases(cases: seq<RunCaseIdentity>, ids: seq<Uuid>) returns (runCases: seq<RunCase>, caseIDs: map<Uuid, Uuid>)
    requires |ids| == |cases|
    ensures runCases == RunCasesOf(cases, ids) && caseIDs == CaseIDs(cases, ids)
  {
    runCases, caseIDs := [], map[];
    for index := 0 to |cases|
      invariant runCases == RunCasesOf(cases, ids)[..index]
      invariant caseIDs == CaseIDs(cases[..index], ids[..index])
    {
      assert cases[..index + 1][..index] == cases[..index] && ids[..index + 1][..index] == ids[..index];
      caseIDs := caseIDs[cases[index].datasetCaseID := ids[index]];
      runCases := runCases + [RunCaseOf(cases[index], ids[index])];
    }
    assert cases[..|cases|] == cases && ids[..|ids|] == ids;
  }

  predicate UsableLocator(locator: ResolvedLocator, caseIDs: map<Uuid, Uuid>) {
    && locator.caseID in caseIDs && locator.expectedEvidenceID != NIL && locator.sourceID != NIL && locator.sourceRevisionID != NIL
    && locator.documentID != NIL && locator.unitID != NIL && !Blank(locator.contentSHA256)
  }

  ghost predicate UsableLocators(resolved: seq<ResolvedLocator>, caseIDs: map<Uuid, Uuid>) {
    && resolved != []
    && (forall i | 0 <= i < |resolved| :: UsableLocator(resolved[i], caseIDs))
    && forall i, j | 0 <= i < j < |resolved| :: resolved[i].expectedEvidenceID != resolved[j].expectedEvidenceID
  }

  /** How many of the evidence rows belong to a run case. */
  function CaseCount(evidence: seq<ExpectedEvidence>, runCase: Uuid): nat {
    if evidence == [] then 0
    else CaseCount(evidence[..|evidence| - 1], runCase) + if evidence[|evidence| - 1].runCaseID == runCase then 1 else 0
  }

  function EvidenceOf(locator: ResolvedLocator, id: Uuid, runCase: Uuid, ordinal: int): ExpectedEvidence {
    ExpectedEvidence(id, runCase, locator.sourceID, locator.sourceRevisionID, locator.documentID, locator.unitID,
                     locator.canonicalLocator, locator.displayLocator, locator.contentSHA256, ordinal)
  }

  /** The row that continues a plan. */
  ghost predicate NextRow(
    resolved: seq<ResolvedLocator>, caseIDs: map<Uuid, Uuid>, ids: seq<Uuid>, earlier: seq<ExpectedEvidence>, row: ExpectedEvidence)
  {
    var n := |earlier|;
    && n < |resolved| && n < |ids| && resolved[n].caseID in caseIDs
    && row == EvidenceOf(resolved[n], ids[n], caseIDs[resolved[n].caseID], CaseCount(earlier, caseIDs[resolved[n].caseID]) + 1)
  }

  /** Evidence rows follow the resolved locators; within a case they are numbered 1, 2, 3, ... */
  ghost predicate FollowsPlan(resolved: seq<ResolvedLocator>, caseIDs: map<Uuid, Uuid>, ids: seq<Uuid>, evidence: seq<ExpectedEvidence>) {
    forall i | 0 <= i < |evidence| :: NextRow(resolved, caseIDs, ids, evidence[..i], evidence[i])
  }

  lemma CaseCountAppend(evidence: seq<ExpectedEvidence>, row: ExpectedEvidence)
    ensures forall c :: CaseCount(evidence + [row], c) == CaseCount(evidence, c) + if row.runCaseID == c then 1 else 0
  {
    assert (evidence + [row])[..|evidence|] == evidence;
  }

  lemma FollowsOneMore(
    resolved: seq<ResolvedLocator>, caseIDs: map<Uuid, Uuid>, ids: seq<Uuid>, evidence: seq<ExpectedEvidence>, row: ExpectedEvidence)
    requires FollowsPlan(resolved, caseIDs, ids, evidence) && NextRow(resolved, caseIDs, ids, evidence, row)
    ensures FollowsPlan(resolved, caseIDs, ids, evidence + [row])
  {
    var longer := evidence + [row];
    forall i | 0 <= i < |longer| ensures NextRow(resolved, caseIDs, ids, longer[..i], longer[i]) {
      if i < |evidence| {
        assert longer[..i] == evidence[..i] && longer[i] == evidence[i];
      } else {
        assert longer[..i] == evidence;
      }
    }
  }

  /** The counters of the loop. */
  ghost predicate Counts(ordinalByCase: map<Uuid, int>, evidence: seq<ExpectedEvidence>) {
    forall c :: (if c in ordinalByCase then ordinalByCase[c] else 0) == CaseCount(evidence, c)
  }

  lemma CountsOneMore(ordinalByCase: map<Uuid, int>, evidence: seq<ExpectedEvidence>, row: ExpectedEvidence)
    requires Counts(ordinalByCase, evidence) && row.ordinal == CaseCount(evidence, row.runCaseID) + 1
    ensures Counts(ordinalByCase[row.runCaseID := row.ordinal], evidence + [row])
  {
    CaseCountAppend(evidence, row);
  }

  method RunExpectedEvidence(resolved: seq<ResolvedLocator>, caseIDs: map<Uuid, Uuid>, ids: seq<Uuid>)
    returns (evidence: Option<seq<ExpectedEvidence>>)
    requires |ids| == |resolved|
    ensures evidence.Some? <==> UsableLocators(resolved, caseIDs)
    ensures evidence.Some? ==> |evidence.value| == |resolved| && FollowsPlan(resolved, caseIDs, ids, evidence.value)
  {
    if |resolved| == 0 {
      return None;
    }
    var rows: seq<ExpectedEvidence> := [];
    var ordinalByCase: map<Uuid, int> := map[];
    var seen: set<Uuid> := {};
    for index := 0 to |resolved|
      invariant |rows| == index && FollowsPlan(resolved, caseIDs, ids, rows)
      invariant forall i | 0 <= i < index :: UsableLocator(resolved[i], caseIDs)
      invariant forall i, j | 0 <= i < j < index :: resolved[i].expectedEvidenceID != resolved[j].expectedEvidenceID
      invariant seen == set i | 0 <= i < index :: resolved[i].expectedEvidenceID
      invariant Counts(ordinalByCase, rows)
    {
      var locator := resolved[index];
      if !UsableLocator(locator, caseIDs) || locator.expectedEvidenceID in seen {
        return None;
      }
      seen := seen + {locator.expectedEvidenceID};
      var runCase := caseIDs[locator.caseID];
      var ordinal := (if runCase in ordinalByCase then ordinalByCase[runCase] else 0) + 1;
      var row := EvidenceOf(locator, ids[index], runCase, ordinal);
      FollowsOneMore(resolved, caseIDs, ids, rows, row);
      CountsOneMore(ordinalByCase, rows, row);
      ordinalByCase := ordinalByCase[runCase := ordinal];
      rows := rows + [row];
    }
    evidence := Some(rows);
  }

  lemma {:induction false} CaseCountMonotone(evidence: seq<ExpectedEvidence>, i: nat, j: nat, runCase: Uuid)
    requires i <= j <= |evidence|
    ensures CaseCount(evidence[..i], runCase) <= CaseCount(evidence[..j], runCase)
    decreases j
  {
    if i < j {
      assert evidence[..j][..j - 1] == evidence[..j - 1];
      CaseCountMonotone(evidence, i, j - 1, runCase);
    }
  }

  /** Planned evidence never collides on a case and ordinal, as the evidence table demands. */
  lemma PlannedOrdinalsDiffer(resolved: seq<ResolvedLocator>, caseIDs: map<Uuid, Uuid>, ids: seq<Uuid>, evidence: seq<ExpectedEvidence>)
    requires FollowsPlan(resolved, caseIDs, ids, evidence)
    ensures forall i | 0 <= i < |evidence| :: evidence[i].ordinal >= 1
    ensures forall i, j | 0 <= i < j < |evidence| ::
              (evidence[i].runCaseID, evidence[i].ordinal) != (evidence[j].runCaseID, evidence[j].ordinal)
  {
    forall i, j | 0 <= i < j < |evidence|
      ensures (evidence[i].runCaseID, evidence[i].ordinal) != (evidence[j].runCaseID, evidence[j].ordinal)
    {
      if evidence[i].runCaseID == evidence[j].runCaseID {
        var c := evidence[i].runCaseID;
        assert evidence[..i + 1][..i] == evidence[..i];
        assert CaseCount(evidence[..i + 1], c) == CaseCount(evidence[..i], c) + 1;
        CaseCountMonotone(evidence, i + 1, j, c);
      }
    }
  }

  // ---------------------------------------------------------------- Creating a run

  function IdentityOf(request: StartRunRequest, id: Uuid, contentSHA256: string, manifestSHA256: string, caseSet: string): RunIdentity {
    RunIdentity(
      id,
      ComparisonKey(request.datasetRevisionID, contentSHA256, request.corpusID, request.snapshotID, manifestSHA256, caseSet,
                    Scoring.SCORING_POLICY_V1),
      request.experiment, "maintainer-http")
  }

  /** The fresh identifiers one creation draws. */
  datatype Supply = Supply(runID: Uuid, caseIDs: seq<Uuid>, evidenceIDs: seq<Uuid>)

  /** The request handed to CreateRun names every case of the revision and hashes their list. */
  ghost predicate BuiltRequest(
    built: CreateRunRequest, request: StartRunRequest, contentSHA256: string, manifestSHA256: string,
    cases: seq<RunCaseIdentity>, resolved: seq<ResolvedLocator>, supply: Supply, sha: string -> string)
  {
    && |supply.caseIDs| == |cases| && |supply.evidenceIDs| == |resolved|
    && built.identity.id == supply.runID
    && built.identity.key.orderedCaseSetSHA256 == sha(Preimage(cases))
    && built.identity.key.scoringPolicyVersion == "v1" && built.identity.initiatedBy == "maintainer-http"
    && built.identity.key.datasetRevisionID == request.datasetRevisionID && built.identity.key.corpusID == request.corpusID
    && built.identity.key.snapshotID == request.snapshotID && built.identity.key.datasetContentSHA256 == contentSHA256
    && built.identity.key.snapshotManifestSHA256 == manifestSHA256
    && built.identity.experiment == request.experiment
    && built.cases == RunCasesOf(cases, supply.caseIDs)
    && |built.evidence| == |resolved|
    && FollowsPlan(resolved, CaseIDs(cases, supply.caseIDs), supply.evidenceIDs, built.evidence)
  }

  method CreateEvaluationRun(
    store: Repository, request: StartRunRequest, plan: PreflightResult, contentSHA256: string, manifestSHA256: string,
    cases: seq<RunCaseIdentity>, supply: Supply, sha: string -> string, now: nat)
    returns (status: Status, ghost built: Option<CreateRunRequest>)
    requires |supply.caseIDs| == |cases| && |supply.evidenceIDs| == |plan.resolved|
    modifies store
    ensures built.None? ==> status == Rejected && store.Tables() == old(store.Tables())
    ensures built.Some? ==>
              && BuiltRequest(built.value, request, contentSHA256, manifestSHA256, cases, plan.resolved, supply, sha)
              && (store.Tables(), status) == Ledger.CreateRun(store.catalog, old(store.Tables()), built.value, now)
    ensures built.None? <==>
              || request.corpusID == NIL || request.datasetRevisionID == NIL || request.snapshotID == NIL
              || plan.corpusID != request.corpusID || plan.datasetRevisionID != request.datasetRevisionID || plan.snapshotID != request.snapshotID
              || cases == [] || !UsableLocators(plan.resolved, CaseIDs(cases, supply.caseIDs))
  {
    if request.corpusID == NIL || request.datasetRevisionID == NIL || request.snapshotID == NIL || plan.corpusID != request.corpusID ||
       plan.datasetRevisionID != request.datasetRevisionID || plan.snapshotID != request.snapshotID || |cases| == 0
    {
      return Rejected, None;
    }
    var caseSet := OrderedCaseSetSHA256(cases, sha);
    var runCases, caseIDs := MakeRunCases(cases, supply.caseIDs);
    var evidence := RunExpectedEvidence(plan.resolved, caseIDs, supply.evidenceIDs);
    if evidence.None? {
      return Rejected, None;
    }
    var creation := CreateRunRequest(
      IdentityOf(request, supply.runID, contentSHA256, manifestSHA256, caseSet), runCases, evidence.value);
    status := store.CreateRun(creation, now);
    built := Some(creation);
  }

  // ---------------------------------------------------------------- The case set of a stored run

  ghost function DatasetIDs(cases: seq<RunCaseIdentity>): set<Uuid> {
    set i | 0 <= i < |cases| :: cases[i].datasetCaseID
  }

  /** The run holds exactly the listed dataset cases, and its key hashes their list. */
  ghost predicate HoldsCaseSet(db: Db, r: Uuid, cases: seq<RunCaseIdentity>, sha: string -> string) {
    && r in db.runs && db.runs[r].key.orderedCaseSetSHA256 == sha(Preimage(cases))
    && (forall c | c in CasesOf(db, r) :: db.cases[c].datasetCaseID in DatasetIDs(cases))
    && (forall d | d in DatasetIDs(cases) :: exists c :: c in CasesOf(db, r) && db.cases[c].datasetCaseID == d)
  }

  /** A stored run keeps its key and its cases under every later call. */
  ghost predicate SameCaseSet(db: Db, after: Db, r: Uuid) {
    && r in db.runs && r in after.runs && after.runs[r].key == db.runs[r].key
    && CasesOf(after, r) == CasesOf(db, r)
    && forall c | c in CasesOf(db, r) :: after.cases[c].datasetCaseID == db.cases[c].datasetCaseID
  }

  /** Cases that appear belong to the run being created, which is new. */
  lemma NewCasesJoinNewRuns(catalog: Catalog, db: Db, e: Event, c: Uuid)
    requires e.CreateRunEvent? && c !in db.cases && c in Apply(catalog, db, e).0.cases
    ensures Apply(catalog, db, e).0.cases[c].runID !in db.runs
  {
    var after := CreatedRows(catalog, db, e.request, e.now);
  }

  lemma CallKeepsCaseSet(catalog: Catalog, db: Db, e: Event, r: Uuid)
    requires r in db.runs
    ensures SameCaseSet(db, Apply(catalog, db, e).0, r)
  {
    var after := Apply(catalog, db, e).0;
    RunIdentities.IdentitySurvives(catalog, db, e);
    assert RunIdentities.SameIdentity(db, after, r);
    forall c | c in db.cases
      ensures c in after.cases && after.cases[c].runID == db.cases[c].runID && after.cases[c].datasetCaseID == db.cases[c].datasetCaseID
    {
      LedgerHistory.EveryCallMovesCases(catalog, db, e, c);
    }
    forall c | c in after.cases && c !in db.cases ensures after.cases[c].runID != r {
      if e.CreateRunEvent? {
        NewCasesJoinNewRuns(catalog, db, e, c);
      } else {
        LedgerHistory.OtherCallsAddNoCases(catalog, db, e);
      }
    }
    assert CasesOf(after, r) == CasesOf(db, r);
  }

  lemma {:induction false} HistoryKeepsCaseSet(catalog: Catalog, db: Db, history: seq<Event>, r: Uuid)
    requires r in db.runs
    ensures SameCaseSet(db, Exec(catalog, db, history), r)
  {
    if history != [] {
      HistoryKeepsCaseSet(catalog, db, history[..|history| - 1], r);
      CallKeepsCaseSet(catalog, Exec(catalog, db, history[..|history| - 1]), history[|history| - 1], r);
    }
  }

  lemma NewRunHoldsCaseSet(
    catalog: Catalog, db: Db, built: CreateRunRequest, request: StartRunRequest, contentSHA256: string, manifestSHA256: string,
    cases: seq<RunCaseIdentity>, resolved: seq<ResolvedLocator>, supply: Supply, sha: string -> string, now: nat)
    requires BuiltRequest(built, request, contentSHA256, manifestSHA256, cases, resolved, supply, sha)
    requires ValidRequest(built) && StorableRequest(catalog, db, built)
    requires forall c | c in db.cases :: db.cases[c].runID != supply.runID
    ensures HoldsCaseSet(Ledger.CreateRun(catalog, db, built, now).0, supply.runID, cases, sha)
  {
    var after := CreatedRows(catalog, db, built, now);
    var r := supply.runID;
    forall c | c in CasesOf(after, r) ensures after.cases[c].datasetCaseID in DatasetIDs(cases) {
      assert c !in db.cases;
    }
    forall d | d in DatasetIDs(cases) ensures exists c :: c in CasesOf(after, r) && after.cases[c].datasetCaseID == d {
      var i :| 0 <= i < |cases| && cases[i].datasetCaseID == d;
      BuiltCaseIsInRun(catalog, db, built, request, contentSHA256, manifestSHA256, cases, resolved, supply, sha, now, i);
    }
  }

  lemma BuiltCaseIsInRun(
    catalog: Catalog, db: Db, built: CreateRunRequest, request: StartRunRequest, contentSHA256: string, manifestSHA256: string,
    cases: seq<RunCaseIdentity>, resolved: seq<ResolvedLocator>, supply: Supply, sha: string -> string, now: nat, i: nat)
    requires BuiltRequest(built, request, contentSHA256, manifestSHA256, cases, resolved, supply, sha) && i < |cases|
    requires ValidRequest(built) && StorableRequest(catalog, db, built)
    ensures var after := Ledger.CreateRun(catalog, db, built, now).0;
            supply.caseIDs[i] in CasesOf(after, supply.runID) && after.cases[supply.caseIDs[i]].datasetCaseID == cases[i].datasetCaseID
  {
    assert built.cases[i] == RunCaseOf(cases[i], supply.caseIDs[i]);
    CreatedCaseRow(catalog, db, built, now, i);
  }

  /** A created run holds the case set it was built from, and so it does after any later calls. */
  lemma CreatedRunHoldsCaseSet(
    catalog: Catalog, db: Db, built: CreateRunRequest, request: StartRunRequest, contentSHA256: string, manifestSHA256: string,
    cases: seq<RunCaseIdentity>, resolved: seq<ResolvedLocator>, supply: Supply, sha: string -> string, now: nat, later: seq<Event>)
    requires Inv(catalog, db) && BuiltRequest(built, request, contentSHA256, manifestSHA256, cases, resolved, supply, sha)
    requires Ledger.CreateRun(catalog, db, built, now).1 == Done
    ensures HoldsCaseSet(Exec(catalog, Ledger.CreateRun(catalog, db, built, now).0, later), supply.runID, cases, sha)
  {
    forall c | c in db.cases ensures db.cases[c].runID != supply.runID { assert CaseOk(catalog, db, c); }
    NewRunHoldsCaseSet(catalog, db, built, request, contentSHA256, manifestSHA256, cases, resolved, supply, sha, now);
    HistoryKeepsCaseSet(catalog, Ledger.CreateRun(catalog, db, built, now).0, later, supply.runID);
  }

  lemma CreatedCaseRow(catalog: Catalog, db: Db, built: CreateRunRequest, now: nat, i: nat)
    requires ValidRequest(built) && StorableRequest(catalog, db, built) && i < |built.cases|
    ensures var after := Ledger.CreateRun(catalog, db, built, now).0;
            && built.cases[i].id in after.cases
            && after.cases[built.cases[i].id] == NewCaseRow(built.identity, built.cases[i], now)
  {
    WithCasesRows(db.cases, built.identity, built.cases, now);
  }

  // ---------------------------------------------------------------- A stored run is as planned

  /** The stored run carries the requested configuration and the given digests. */
  ghost predicate RunAsRequested(run: RunRow, request: StartRunRequest, contentSHA256: string, manifestSHA256: string) {
    && run.key.datasetRevisionID == request.datasetRevisionID && run.key.corpusID == request.corpusID
    && run.key.snapshotID == request.snapshotID && run.key.datasetContentSHA256 == contentSHA256
    && run.key.snapshotManifestSHA256 == manifestSHA256 && run.key.scoringPolicyVersion == "v1"
    && run.experiment == request.experiment && run.initiatedBy == "maintainer-http" && run.state.Queued?
  }

  /** The stored case of a dataset case. */
  predicate CaseAsListed(row: CaseRow, run: Uuid, item: RunCaseIdentity, now: nat) {
    && row.runID == run && row.datasetCaseID == item.datasetCaseID && row.position == item.position
    && row.expectedOutcome == item.expectedOutcome && row.createdAt == now && row.state.Pending? && row.attempts == 0
  }

  /** The stored evidence of a resolved locator, attached to the run's case of its dataset case. */
  predicate EvidenceAsResolved(db: Db, e: ExpectedEvidence, run: Uuid, locator: ResolvedLocator) {
    && e.sourceID == locator.sourceID && e.sourceRevisionID == locator.sourceRevisionID && e.documentID == locator.documentID
    && e.legalUnitID == locator.unitID && e.canonicalLocator == locator.canonicalLocator
    && e.displayLocator == locator.displayLocator && e.contentSHA256 == locator.contentSHA256 && e.ordinal >= 1
    && e.runCaseID in db.cases && db.cases[e.runCaseID].runID == run && db.cases[e.runCaseID].datasetCaseID == locator.caseID
  }

  lemma {:induction false} CaseIDsNameCases(cases: seq<RunCaseIdentity>, ids: seq<Uuid>, d: Uuid)
    requires |ids| == |cases| && d in CaseIDs(cases, ids)
    ensures exists i :: 0 <= i < |cases| && cases[i].datasetCaseID == d && ids[i] == CaseIDs(cases, ids)[d]
  {
    var n := |cases| - 1;
    if cases[n].datasetCaseID != d {
      CaseIDsNameCases(cases[..n], ids[..n], d);
      var i :| 0 <= i < n && cases[..n][i].datasetCaseID == d && ids[..n][i] == CaseIDs(cases, ids)[d];
      assert cases[i].datasetCaseID == d && ids[i] == CaseIDs(cases, ids)[d];
    }
  }

  lemma CasesAsListed(
    after: Db, built: CreateRunRequest, cases: seq<RunCaseIdentity>, supply: Supply, db: Db, now: nat)
    requires |supply.caseIDs| == |cases| && built.cases == RunCasesOf(cases, supply.caseIDs) && built.identity.id == supply.runID
    requires LedgerOutcomes.RunStored(db, after, built, now)
    ensures forall i | 0 <= i < |cases| ::
              supply.caseIDs[i] in after.cases && CaseAsListed(after.cases[supply.caseIDs[i]], supply.runID, cases[i], now)
  {
    forall i | 0 <= i < |cases|
      ensures supply.caseIDs[i] in after.cases && CaseAsListed(after.cases[supply.caseIDs[i]], supply.runID, cases[i], now)
    {
      assert built.cases[i] in built.cases;
    }
  }

  lemma EvidenceAsPlanned(
    after: Db, built: CreateRunRequest, cases: seq<RunCaseIdentity>, resolved: seq<ResolvedLocator>, supply: Supply, db: Db, now: nat, i: nat)
    requires |supply.caseIDs| == |cases| && |supply.evidenceIDs| == |resolved| == |built.evidence| && i < |resolved|
    requires FollowsPlan(resolved, CaseIDs(cases, supply.caseIDs), supply.evidenceIDs, built.evidence)
    requires LedgerOutcomes.RunStored(db, after, built, now)
    requires forall i | 0 <= i < |cases| ::
               supply.caseIDs[i] in after.cases && CaseAsListed(after.cases[supply.caseIDs[i]], supply.runID, cases[i], now)
    ensures supply.evidenceIDs[i] in after.expected
    ensures EvidenceAsResolved(after, after.expected[supply.evidenceIDs[i]], supply.runID, resolved[i])
  {
    var row := built.evidence[i];
    assert row in built.evidence && NextRow(resolved, CaseIDs(cases, supply.caseIDs), supply.evidenceIDs, built.evidence[..i], row);
    CaseIDsNameCases(cases, supply.caseIDs, resolved[i].caseID);
  }

  /**
   A run that is created is stored as planned: its configuration and digests, one waiting case per listed dataset
   case, and one evidence row per resolved locator, attached to the run's case of the locator's dataset case.
   */
  lemma CreatedRunIsAsPlanned(
    catalog: Catalog, db: Db, built: CreateRunRequest, request: StartRunRequest, contentSHA256: string, manifestSHA256: string,
    cases: seq<RunCaseIdentity>, resolved: seq<ResolvedLocator>, supply: Supply, sha: string -> string, now: nat)
    requires BuiltRequest(built, request, contentSHA256, manifestSHA256, cases, resolved, supply, sha)
    requires Ledger.CreateRun(catalog, db, built, now).1 == Done
    ensures var after := Ledger.CreateRun(catalog, db, built, now).0;
            && supply.runID in after.runs && RunAsRequested(after.runs[supply.runID], request, contentSHA256, manifestSHA256)
            && (forall i | 0 <= i < |cases| ::
                  supply.caseIDs[i] in after.cases && CaseAsListed(after.cases[supply.caseIDs[i]], supply.runID, cases[i], now))
            && forall i | 0 <= i < |resolved| ::
                 supply.evidenceIDs[i] in after.expected
                 && EvidenceAsResolved(after, after.expected[supply.evidenceIDs[i]], supply.runID, resolved[i])
  {
    var after := Ledger.CreateRun(catalog, db, built, now).0;
    LedgerOutcomes.CreateRunStoresRequest(catalog, db, built, now);
    CasesAsListed(after, built, cases, supply, db, now);
    forall i: nat | i < |resolved|
      ensures supply.evidenceIDs[i] in after.expected
              && EvidenceAsResolved(after, after.expected[supply.evidenceIDs[i]], supply.runID, resolved[i])
    {
      EvidenceAsPlanned(after, built, cases, resolved, supply, db, now, i);
    }
  }

  // ---------------------------------------------------------------- Comparable runs pair completely

  /**
   Two runs of the ledger whose keys agree hold the same dataset cases when the hash tells their
   two preimages apart, so comparing them leaves no case unpaired on either side.
   */
  lemma ComparableRunsPairCompletely(
    catalog: Catalog, db: Db, left: Uuid, right: Uuid, leftIds: seq<Uuid>, rightIds: seq<Uuid>,
    leftCases: seq<RunCaseIdentity>, rightCases: seq<RunCaseIdentity>, sha: string -> string)
    requires Inv(catalog, db)
    requires sha(Preimage(leftCases)) == sha(Preimage(rightCases)) ==> Preimage(leftCases) == Preimage(rightCases)
    requires HoldsCaseSet(db, left, leftCases, sha) && HoldsCaseSet(db, right, rightCases, sha)
    requires ChecksumsAreHashes(leftCases) && ChecksumsAreHashes(rightCases)
    requires PositionOrder(db, left, leftIds) && PositionOrder(db, right, rightIds)
    requires ResultOf(Projection(db, left, leftIds), Projection(db, right, rightIds)).Comparable?
    ensures var totals := ResultOf(Projection(db, left, leftIds), Projection(db, right, rightIds)).totals;
            totals.leftUnpaired == 0 && totals.rightUnpaired == 0 && totals.leftCases == totals.rightCases == totals.pairedCases
  {
    var l, r := Projection(db, left, leftIds), Projection(db, right, rightIds);
    ComparableExactlyOnEqualKeys(l, r);
    PreimageInjective(leftCases, rightCases);
    assert DatasetIDs(leftCases) == DatasetIDs(rightCases);
    IndexKeysAreCaseSet(catalog, db, left, leftIds, leftCases, sha);
    IndexKeysAreCaseSet(catalog, db, right, rightIds, rightCases, sha);
    assert Index(l.cases).Keys - Index(r.cases).Keys == {} && Index(r.cases).Keys - Index(l.cases).Keys == {};
    TotalsConserveCases(Index(l.cases), Index(r.cases));
  }

  lemma IndexKeysAreCaseSet(catalog: Catalog, db: Db, r: Uuid, ids: seq<Uuid>, cases: seq<RunCaseIdentity>, sha: string -> string)
    requires Inv(catalog, db) && HoldsCaseSet(db, r, cases, sha) && PositionOrder(db, r, ids)
    ensures Index(Projection(db, r, ids).cases).Keys == DatasetIDs(cases)
  {
    ProjectionRepresents(catalog, db, r, ids);
  }
}
