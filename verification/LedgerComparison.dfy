/** Where the ledger and comparison meet: reading a run back, and summing it a second time. */
module LedgerComparison {
  import opened Text
  import opened Evaluation
  import opened Sums
  import opened Ledger
  import opened LedgerInvariant
  import opened LedgerFinal
  import opened Comparison
  import opened LedgerStore

  // ---------------------------------------------------------------- Reading a run

  function ProjectMetric(name: MetricName, row: MetricRow): ComparisonMetric {
    ComparisonMetric(name, row.state, row.scorerVersion, row.numerator, row.denominator)
  }

  /** The stored metrics among some listed names, in the listed order. */
  function ListMetrics(rows: map<MetricName, MetricRow>, names: seq<MetricName>): seq<ComparisonMetric> {
    if names == [] then []
    else
      var last := names[|names| - 1];
      ListMetrics(rows, names[..|names| - 1]) + if last in rows then [ProjectMetric(last, rows[last])] else []
  }

  function ProjectCase(db: Db, c: Uuid): ComparisonCase
    requires c in db.cases
  {
    ComparisonCase(db.cases[c].datasetCaseID, db.cases[c].state,
                   if c in db.metrics then ListMetrics(db.metrics[c], ALPHABETICAL) else [])
  }

  /** The cases of a run by position. */
  ghost predicate PositionOrder(db: Db, r: Uuid, ids: seq<Uuid>) {
    && (forall c :: c in ids <==> c in CasesOf(db, r))
    && forall i, j | 0 <= i < j < |ids| :: ids[i] in db.cases && ids[j] in db.cases && db.cases[ids[i]].position < db.cases[ids[j]].position
  }

  ghost function Projection(db: Db, r: Uuid, ids: seq<Uuid>): ComparisonRun
    requires r in db.runs && forall c | c in ids :: c in db.cases
  {
    ComparisonRun(r, db.runs[r].state, db.runs[r].key, db.runs[r].experiment,
                  seq(|ids|, i requires 0 <= i < |ids| => ProjectCase(db, ids[i])))
  }

  method ReadMetrics(rows: map<MetricName, MetricRow>) returns (metrics: seq<ComparisonMetric>)
    ensures metrics == ListMetrics(rows, ALPHABETICAL)
  {
    metrics := [];
    var names := ALPHABETICAL;
    for index := 0 to |names|
      invariant metrics == ListMetrics(rows, names[..index])
    {
      assert names[..index + 1][..index] == names[..index];
      if names[index] in rows {
        metrics := metrics + [ProjectMetric(names[index], rows[names[index]])];
      }
    }
    assert names[..|names|] == names;
  }

  /** The lowest-numbered of some cases whose positions differ. */
  method LowestPosition(db: Db, cases: set<Uuid>) returns (lowest: Uuid)
    requires cases != {} && cases <= db.cases.Keys
    requires forall c, d | c in cases && d in cases && c != d :: db.cases[c].position != db.cases[d].position
    ensures lowest in cases && forall c | c in cases && c != lowest :: db.cases[lowest].position < db.cases[c].position
  {
    lowest :| lowest in cases;
    var pending := cases - {lowest};
    while pending != {}
      invariant pending <= cases && lowest in cases && lowest !in pending
      invariant forall c | c in cases && c !in pending && c != lowest :: db.cases[lowest].position < db.cases[c].position
      decreases pending
    {
      var c :| c in pending;
      pending := pending - {c};
      if db.cases[c].position < db.cases[lowest].position {
        lowest := c;
      }
    }
  }

  /** readComparisonCases: the cases by position, each with its metrics by name. */
  method ReadComparisonCases(db: Db, cases: set<Uuid>) returns (projected: seq<ComparisonCase>, ghost ids: seq<Uuid>)
    requires cases <= db.cases.Keys
    requires forall c, d | c in cases && d in cases && c != d :: db.cases[c].position != db.cases[d].position
    ensures |projected| == |ids| && forall c :: c in ids <==> c in cases
    ensures forall i, j | 0 <= i < j < |ids| :: ids[i] in cases && ids[j] in cases && db.cases[ids[i]].position < db.cases[ids[j]].position
    ensures forall i | 0 <= i < |ids| :: ids[i] in cases && projected[i] == ProjectCase(db, ids[i])
    ensures forall c | c in cases :: ProjectCase(db, c) in projected
  {
    projected, ids := [], [];
    var remaining := cases;
    while remaining != {}
      invariant remaining <= cases && |projected| == |ids|
      invariant forall c :: c in ids <==> c in cases - remaining
      invariant forall i | 0 <= i < |ids| :: ids[i] in cases && projected[i] == ProjectCase(db, ids[i])
      invariant forall i, j | 0 <= i < j < |ids| :: db.cases[ids[i]].position < db.cases[ids[j]].position
      invariant forall i, c | 0 <= i < |ids| && c in remaining :: db.cases[ids[i]].position < db.cases[c].position
      decreases remaining
    {
      var c := LowestPosition(db, remaining);
      remaining := remaining - {c};
      var metrics := [];
      if c in db.metrics {
        metrics := ReadMetrics(db.metrics[c]);
      }
      projected := projected + [ComparisonCase(db.cases[c].datasetCaseID, db.cases[c].state, metrics)];
      ids := ids + [c];
    }
    forall c | c in cases ensures ProjectCase(db, c) in projected {
      assert c in ids;
      var i :| 0 <= i < |ids| && ids[i] == c;
      assert projected[i] == ProjectCase(db, c);
    }
  }

  method ReadComparisonRun(catalog: Catalog, db: Db, r: Uuid) returns (run: Option<ComparisonRun>, ghost ids: seq<Uuid>)
    requires Inv(catalog, db)
    ensures run.Some? <==> r in db.runs
    ensures run.Some? ==> PositionOrder(db, r, ids) && run.value == Projection(db, r, ids)
  {
    if r !in db.runs {
      return None, [];
    }
    assert RunOk(db, r);
    var members := set c | c in db.cases && db.cases[c].runID == r;
    assert members == CasesOf(db, r);
    var cases;
    cases, ids := ReadComparisonCases(db, members);
    run := Some(ComparisonRun(r, db.runs[r].state, db.runs[r].key, db.runs[r].experiment, cases));
  }

  // ---------------------------------------------------------------- Finished runs pass validation

  lemma {:induction false} CompleteListing(rows: map<MetricName, MetricRow>, names: seq<MetricName>)
    requires forall name | name in names :: name in rows
    ensures |ListMetrics(rows, names)| == |names|
    ensures forall i | 0 <= i < |names| :: ListMetrics(rows, names)[i] == ProjectMetric(names[i], rows[names[i]])
  {
    if names != [] {
      CompleteListing(rows, names[..|names| - 1]);
    }
  }

  /** A listing of the ten components without repetition. */
  ghost predicate TenListed(order: seq<MetricName>) {
    && |order| == 10
    && (forall name :: name in order <==> name in TerminalMetricNames)
    && forall i, j | 0 <= i < j < |order| :: order[i] != order[j]
  }

  lemma AlphabeticalListsTen()
    ensures TenListed(ALPHABETICAL)
  {
    forall name ensures name in TerminalMetricNames <==> name in ALPHABETICAL { EveryNameIsListed(name); }
    AlphabeticalIsTextOrder(NameTexts(TerminalMetricNames));
    DistinctListing(ALPHABETICAL, NameTexts(TerminalMetricNames));
  }

  lemma DistinctListing(order: seq<MetricName>, texts: map<MetricName, string>)
    requires ListsInOrder(order, texts)
    ensures forall i, j | 0 <= i < j < |order| :: order[i] != order[j]
  {
    forall i, j | 0 <= i < j < |order| ensures order[i] != order[j] {
      LessIrreflexive(texts[order[i]]);
    }
  }

  /** A complete case ledger read back is valid, whatever the listing. */
  lemma CompleteLedgerReadsBack(rows: map<MetricName, MetricRow>, order: seq<MetricName>, c: ComparisonCase, policy: string)
    requires CompleteLedger(rows, c.state, policy) && TenListed(order) && c.metrics == ListMetrics(rows, order)
    ensures ValidComparisonMetrics(c, policy)
  {
    forall name | name in order ensures name in rows {}
    CompleteListing(rows, order);
    forall i | 0 <= i < 10 ensures ValidComparisonMetric(c.state, c.metrics[i], policy) {
      assert order[i] in order;
      StoredMetricIsValid(order[i], rows[order[i]], c.state, policy);
    }
  }

  lemma StoredMetricIsValid(name: MetricName, row: MetricRow, state: CaseState, policy: string)
    requires name in TerminalMetricNames && RowOk(row, policy) && (TerminalFailure(state) ==> row.state != Scored)
    ensures ValidComparisonMetric(state, ProjectMetric(name, row), policy)
  {
  }

  lemma FinishedCaseIsValid(catalog: Catalog, db: Db, c: Uuid, policy: string)
    requires c in db.cases && CaseOk(catalog, db, c) && TerminalCase(db.cases[c].state)
    requires policy == db.runs[db.cases[c].runID].key.scoringPolicyVersion
    ensures ValidComparisonCase(ProjectCase(db, c), policy)
  {
    AlphabeticalListsTen();
    CompleteLedgerReadsBack(db.metrics[c], ALPHABETICAL, ProjectCase(db, c), policy);
  }

  /** A run read back passes the comparison's validation exactly when it is finished. */
  lemma FinishedRunsAreValid(catalog: Catalog, db: Db, r: Uuid, ids: seq<Uuid>)
    requires Inv(catalog, db) && r in db.runs && PositionOrder(db, r, ids)
    ensures ValidComparisonRun(Projection(db, r, ids), r) <==> TerminalRun(db.runs[r].state)
  {
    if TerminalRun(db.runs[r].state) {
      var cases, policy := Projection(db, r, ids).cases, db.runs[r].key.scoringPolicyVersion;
      assert KeyOk(db.runs[r].key) && DistinctCases(db, r) && AllTerminal(db, r) by { assert RunOk(db, r); }
      var c :| c in CasesOf(db, r);
      assert c in ids;
      forall i | 0 <= i < |cases| ensures ValidComparisonCase(cases[i], policy) {
        assert ids[i] in ids && CaseOk(catalog, db, ids[i]);
        FinishedCaseIsValid(catalog, db, ids[i], policy);
      }
      forall i, j | 0 <= i < j < |cases| ensures cases[i].datasetCaseID != cases[j].datasetCaseID {
        assert ids[i] in ids && ids[j] in ids;
      }
    }
  }

  /** After any history of repository calls, a run read back passes validation exactly when it is finished. */
  lemma ReachableRunsAreValid(catalog: Catalog, history: seq<Event>, r: Uuid, ids: seq<Uuid>)
    requires r in Exec(catalog, EMPTY, history).runs && PositionOrder(Exec(catalog, EMPTY, history), r, ids)
    ensures ValidComparisonRun(Projection(Exec(catalog, EMPTY, history), r, ids), r)
       <==> TerminalRun(Exec(catalog, EMPTY, history).runs[r].state)
  {
    InitialInvariant(catalog);
    EveryHistoryKeepsInvariant(catalog, EMPTY, history);
    FinishedRunsAreValid(catalog, Exec(catalog, EMPTY, history), r, ids);
  }

  // ---------------------------------------------------------------- The two sums agree

  /** The dataset cases of a run, each with its case read back. */
  ghost predicate Represents(db: Db, r: Uuid, run: map<Uuid, ComparisonCase>) {
    && (forall c | c in CasesOf(db, r) :: db.cases[c].datasetCaseID in run && run[db.cases[c].datasetCaseID] == ProjectCase(db, c))
    && (forall d | d in run :: exists c :: c in CasesOf(db, r) && db.cases[c].datasetCaseID == d)
  }

  lemma ProjectionRepresents(catalog: Catalog, db: Db, r: Uuid, ids: seq<Uuid>)
    requires Inv(catalog, db) && r in db.runs && PositionOrder(db, r, ids)
    ensures Represents(db, r, Index(Projection(db, r, ids).cases))
  {
    var cases := Projection(db, r, ids).cases;
    assert DistinctCases(db, r) by { assert RunOk(db, r); }
    forall i, j | 0 <= i < j < |cases| ensures cases[i].datasetCaseID != cases[j].datasetCaseID {
      assert ids[i] in ids && ids[j] in ids;
    }
    IndexLookup(cases);
    forall c | c in CasesOf(db, r)
      ensures db.cases[c].datasetCaseID in Index(cases) && Index(cases)[db.cases[c].datasetCaseID] == ProjectCase(db, c)
    {
      assert c in ids && CaseOk(catalog, db, c);
      assert c in ids;
      var i :| 0 <= i < |ids| && ids[i] == c;
      assert cases[i] == ProjectCase(db, c);
    }
    forall d | d in Index(cases) ensures exists c :: c in CasesOf(db, r) && db.cases[c].datasetCaseID == d {
      IndexHolds(cases, d);
      var i :| 0 <= i < |cases| && cases[i] == Index(cases)[d];
      assert ids[i] in ids;
    }
  }

  lemma {:induction false} ListedByName(rows: map<MetricName, MetricRow>, names: seq<MetricName>, name: MetricName)
    ensures name in ByName(ListMetrics(rows, names)) <==> name in names && name in rows
    ensures name in names && name in rows ==> ByName(ListMetrics(rows, names))[name] == ProjectMetric(name, rows[name])
  {
    if names != [] {
      var earlier, last := names[..|names| - 1], names[|names| - 1];
      ListedByName(rows, earlier, name);
      assert names == earlier + [last];
      if last in rows {
        assert ListMetrics(rows, names)[..|ListMetrics(rows, names)| - 1] == ListMetrics(rows, earlier);
      } else {
        assert ListMetrics(rows, names) == ListMetrics(rows, earlier);
      }
    }
  }

  /** What one stored case adds to a component, seen from the ledger and from comparison. */
  ghost predicate SameContribution(rows: map<MetricName, MetricRow>, g: Group, c: ComparisonCase) {
    && (JointlyScored(c, c, g.name) <==> Bit(rows, g, Scored) == 1)
    && JointNumerator(c, c, g.name) == NumeratorIn(rows, g)
    && JointDenominator(c, c, g.name) == DenominatorIn(rows, g)
  }

  lemma OwnContribution(c: ComparisonCase, name: MetricName, row: MetricRow, policy: string)
    requires name in TerminalMetricNames && RowOk(row, policy)
    requires name in ByName(c.metrics) && ByName(c.metrics)[name] == ProjectMetric(name, row)
    ensures JointlyScored(c, c, name) <==> row.state == Scored
    ensures row.state == Scored ==> Some(JointNumerator(c, c, name)) == row.numerator && Some(JointDenominator(c, c, name)) == row.denominator
    ensures row.state != Scored ==> JointNumerator(c, c, name) == JointDenominator(c, c, name) == 0
  {
  }

  lemma LedgerContribution(rows: map<MetricName, MetricRow>, g: Group)
    requires g.name in rows && RowOk(rows[g.name], g.scorerVersion)
    ensures Bit(rows, g, Scored) == 1 <==> rows[g.name].state == Scored
    ensures rows[g.name].state == Scored ==>
              Some(NumeratorIn(rows, g)) == rows[g.name].numerator && Some(DenominatorIn(rows, g)) == rows[g.name].denominator
    ensures rows[g.name].state != Scored ==> NumeratorIn(rows, g) == DenominatorIn(rows, g) == 0
  {
  }

  lemma ContributionsAgree(rows: map<MetricName, MetricRow>, state: CaseState, order: seq<MetricName>, c: ComparisonCase, g: Group)
    requires CompleteLedger(rows, state, g.scorerVersion) && TenListed(order) && c.metrics == ListMetrics(rows, order)
    requires g.name in TerminalMetricNames
    ensures SameContribution(rows, g, c)
    ensures TerminalFailure(state) ==> !JointlyScored(c, c, g.name)
  {
    assert g.name in rows && RowOk(rows[g.name], g.scorerVersion) && g.name in order;
    ListedByName(rows, order, g.name);
    OwnContribution(c, g.name, rows[g.name], g.scorerVersion);
    LedgerContribution(rows, g);
  }

  lemma CaseContributionsAgree(catalog: Catalog, db: Db, r: Uuid, run: map<Uuid, ComparisonCase>, c: Uuid, g: Group)
    requires Represents(db, r, run) && r in db.runs && c in CasesOf(db, r) && CaseOk(catalog, db, c)
    requires TerminalCase(db.cases[c].state) && g in TenGroups(db.runs[r].key.scoringPolicyVersion)
    ensures c in RunMetrics(db, r) && db.cases[c].datasetCaseID in run
    ensures SameContribution(RunMetrics(db, r)[c], g, run[db.cases[c].datasetCaseID])
    ensures TerminalFailure(run[db.cases[c].datasetCaseID].state) ==>
              !JointlyScored(run[db.cases[c].datasetCaseID], run[db.cases[c].datasetCaseID], g.name)
  {
    AlphabeticalListsTen();
    ContributionsAgree(db.metrics[c], db.cases[c].state, ALPHABETICAL, ProjectCase(db, c), g);
  }

  /** All three sums of a run against itself, over all its cases. */
  ghost function OwnNumerators(run: map<Uuid, ComparisonCase>, name: MetricName): map<Uuid, int> {
    map d | d in run :: JointNumerator(run[d], run[d], name)
  }

  ghost function OwnDenominators(run: map<Uuid, ComparisonCase>, name: MetricName): map<Uuid, int> {
    map d | d in run :: JointDenominator(run[d], run[d], name)
  }

  ghost function OwnBits(run: map<Uuid, ComparisonCase>, name: MetricName): map<Uuid, int> {
    map d | d in run :: if JointlyScored(run[d], run[d], name) then 1 else 0
  }

  ghost function DatasetCases(db: Db, rows: map<Uuid, map<MetricName, MetricRow>>): map<Uuid, Uuid>
    requires rows.Keys <= db.cases.Keys
  {
    map c | c in rows :: db.cases[c].datasetCaseID
  }

  /** A one-to-one renaming of a run's cases that matches every contribution. */
  ghost predicate Matches(rows: map<Uuid, map<MetricName, MetricRow>>, g: Group, run: map<Uuid, ComparisonCase>, name: map<Uuid, Uuid>) {
    && name.Keys == rows.Keys
    && (forall c | c in rows :: name[c] in run && SameContribution(rows[c], g, run[name[c]]))
    && (forall c, d | c in rows && d in rows && name[c] == name[d] :: c == d)
    && (forall d | d in run :: exists c :: c in rows && name[c] == d)
    && (forall d | d in run && TerminalFailure(run[d].state) :: !JointlyScored(run[d], run[d], g.name))
  }

  lemma FinishedRunMatches(catalog: Catalog, db: Db, r: Uuid, run: map<Uuid, ComparisonCase>, g: Group)
    requires Inv(catalog, db) && r in db.runs && TerminalRun(db.runs[r].state) && Represents(db, r, run)
    requires g in TenGroups(db.runs[r].key.scoringPolicyVersion)
    ensures RunMetrics(db, r).Keys == CasesOf(db, r)
    ensures Matches(RunMetrics(db, r), g, run, DatasetCases(db, RunMetrics(db, r)))
  {
    assert DistinctCases(db, r) && AllTerminal(db, r) by { assert RunOk(db, r); }
    FinishedRunRows(catalog, db, r);
    forall c | c in CasesOf(db, r)
      ensures db.cases[c].datasetCaseID in run && SameContribution(RunMetrics(db, r)[c], g, run[db.cases[c].datasetCaseID])
      ensures TerminalFailure(run[db.cases[c].datasetCaseID].state) ==>
                !JointlyScored(run[db.cases[c].datasetCaseID], run[db.cases[c].datasetCaseID], g.name)
    {
      assert CaseOk(catalog, db, c);
      CaseContributionsAgree(catalog, db, r, run, c, g);
    }
    RowsMatch(db, r, RunMetrics(db, r), g, run);
  }

  lemma RowsMatch(db: Db, r: Uuid, rows: map<Uuid, map<MetricName, MetricRow>>, g: Group, run: map<Uuid, ComparisonCase>)
    requires Represents(db, r, run) && DistinctCases(db, r) && rows.Keys == CasesOf(db, r)
    requires forall c | c in CasesOf(db, r) ::
               && db.cases[c].datasetCaseID in run && SameContribution(rows[c], g, run[db.cases[c].datasetCaseID])
               && (TerminalFailure(run[db.cases[c].datasetCaseID].state) ==>
                     !JointlyScored(run[db.cases[c].datasetCaseID], run[db.cases[c].datasetCaseID], g.name))
    ensures Matches(rows, g, run, DatasetCases(db, rows))
  {
  }

  lemma MatchedNumerators(rows: map<Uuid, map<MetricName, MetricRow>>, g: Group, run: map<Uuid, ComparisonCase>, name: map<Uuid, Uuid>)
    requires Matches(rows, g, run, name)
    ensures Sum(OwnNumerators(run, g.name)) == Sum(Numerators(rows, g))
  {
    SumRename(Numerators(rows, g), OwnNumerators(run, g.name), name);
  }

  lemma MatchedDenominators(rows: map<Uuid, map<MetricName, MetricRow>>, g: Group, run: map<Uuid, ComparisonCase>, name: map<Uuid, Uuid>)
    requires Matches(rows, g, run, name)
    ensures Sum(OwnDenominators(run, g.name)) == Sum(Denominators(rows, g))
  {
    SumRename(Denominators(rows, g), OwnDenominators(run, g.name), name);
  }

  lemma MatchedBits(rows: map<Uuid, map<MetricName, MetricRow>>, g: Group, run: map<Uuid, ComparisonCase>, name: map<Uuid, Uuid>)
    requires Matches(rows, g, run, name)
    ensures Sum(OwnBits(run, g.name)) == Sum(Bits(rows, g, Scored))
  {
    SumRename(Bits(rows, g, Scored), OwnBits(run, g.name), name);
  }

  lemma EligibleNumerators(run: map<Uuid, ComparisonCase>, name: MetricName)
    requires forall d | d in run && TerminalFailure(run[d].state) :: !JointlyScored(run[d], run[d], name)
    ensures Sum(NumeratorsOf(run, run, Eligible(run, run), name)) == Sum(OwnNumerators(run, name))
  {
    SumRestrict(OwnNumerators(run, name), NumeratorsOf(run, run, Eligible(run, run), name));
  }

  lemma EligibleDenominators(run: map<Uuid, ComparisonCase>, name: MetricName)
    requires forall d | d in run && TerminalFailure(run[d].state) :: !JointlyScored(run[d], run[d], name)
    ensures Sum(DenominatorsOf(run, run, Eligible(run, run), name)) == Sum(OwnDenominators(run, name))
  {
    SumRestrict(OwnDenominators(run, name), DenominatorsOf(run, run, Eligible(run, run), name));
  }

  lemma JointlyCarriesTheBits(run: map<Uuid, ComparisonCase>, name: MetricName)
    requires forall d | d in run && TerminalFailure(run[d].state) :: !JointlyScored(run[d], run[d], name)
    ensures |Jointly(run, run, Eligible(run, run), name)| == Sum(OwnBits(run, name))
  {
    var jointly := Jointly(run, run, Eligible(run, run), name);
    var ones := map d | d in jointly :: 1;
    SumRestrict(OwnBits(run, name), ones);
    SumOfOnes(ones);
    assert ones.Keys == jointly && |ones| == |ones.Keys|;
  }

  lemma SelfSumsMatchGroup(rows: map<Uuid, map<MetricName, MetricRow>>, g: Group, run: map<Uuid, ComparisonCase>, name: map<Uuid, Uuid>)
    requires Matches(rows, g, run, name)
    ensures var d, counts := SummedOver(run, run, Eligible(run, run), g.name), CountsOf(rows, g);
            && d.pairedCases == counts.scored
            && d.leftNumerator == d.rightNumerator == counts.numerator
            && d.leftDenominator == d.rightDenominator == counts.denominator
  {
    MatchedNumerators(rows, g, run, name);
    MatchedDenominators(rows, g, run, name);
    MatchedBits(rows, g, run, name);
    EligibleNumerators(run, g.name);
    EligibleDenominators(run, g.name);
    JointlyCarriesTheBits(run, g.name);
  }

  /** A delta carries the same arithmetic as a stored aggregate, on both sides. */
  ghost predicate Reproduces(d: MetricDelta, stored: AggregateRow) {
    && d.pairedCases == stored.counts.scored
    && d.leftNumerator == d.rightNumerator == stored.counts.numerator
    && d.leftDenominator == d.rightDenominator == stored.counts.denominator
    && (d.state == Scored <==> stored.state == Scored)
    && (d.state == Scored ==>
          && stored.numerator == Some(d.leftNumerator) && stored.denominator == Some(d.leftDenominator)
          && stored.value == d.leftValue == d.rightValue && d.delta == Some(0.0))
    && (d.state != Scored ==> d.leftValue.None? && d.rightValue.None? && d.delta.None?)
  }

  lemma SameSumsReproduce(d: MetricDelta, counts: Counts, cases: nat)
    requires d.pairedCases == counts.scored && d.leftNumerator == d.rightNumerator == counts.numerator
    requires d.leftDenominator == d.rightDenominator == counts.denominator
    requires d.leftValue.None? && d.rightValue.None? && d.delta.None?
    requires d.state == Scored <==> d.pairedCases > 0
    requires SoundAggregate(AggregateOf(counts), cases)
    ensures d.state == Scored ==> d.leftDenominator != 0 && d.rightDenominator != 0
    ensures Reproduces(WithValues(d), AggregateOf(counts))
  {
  }

  lemma RepresentedRunReproduces(catalog: Catalog, db: Db, r: Uuid, run: map<Uuid, ComparisonCase>, g: Group)
    requires Inv(catalog, db) && r in db.runs && TerminalRun(db.runs[r].state) && Represents(db, r, run)
    requires g in TenGroups(db.runs[r].key.scoringPolicyVersion)
    ensures r in db.aggregates && g in db.aggregates[r] && Reproduces(DeltaOf(run, run, g.name), db.aggregates[r][g])
  {
    FinishedRunMatches(catalog, db, r, run, g);
    SelfSumsMatchGroup(RunMetrics(db, r), g, run, DatasetCases(db, RunMetrics(db, r)));
    StoredAggregate(catalog, db, r, g);
    ScoredDeltasDivide(run, run, Eligible(run, run), g.name);
    SameSumsReproduce(SummedOver(run, run, Eligible(run, run), g.name), CountsOf(RunMetrics(db, r), g), |CasesOf(db, r)|);
  }

  /**
   Comparing a finished run with itself reproduces its stored aggregates. For every component the
   left and right sums are the numerator and denominator written at finalisation, the delta is
   scored exactly when the aggregate is, its quotients are the stored value, and it is zero.
   */
  lemma SelfComparisonReproducesAggregates(catalog: Catalog, db: Db, r: Uuid, ids: seq<Uuid>, name: MetricName)
    requires Inv(catalog, db) && r in db.runs && TerminalRun(db.runs[r].state) && PositionOrder(db, r, ids)
    requires name in TerminalMetricNames
    ensures var run := Index(Projection(db, r, ids).cases);
            var g := Group(name, db.runs[r].key.scoringPolicyVersion);
            r in db.aggregates && g in db.aggregates[r] && Reproduces(DeltaOf(run, run, name), db.aggregates[r][g])
  {
    ProjectionRepresents(catalog, db, r, ids);
    RepresentedRunReproduces(catalog, db, r, Index(Projection(db, r, ids).cases), Group(name, db.runs[r].key.scoringPolicyVersion));
  }

  lemma StoredAggregate(catalog: Catalog, db: Db, r: Uuid, g: Group)
    requires Inv(catalog, db) && r in db.runs && TerminalRun(db.runs[r].state)
    requires g in TenGroups(db.runs[r].key.scoringPolicyVersion)
    ensures r in db.aggregates && g in db.aggregates[r]
    ensures db.aggregates[r][g] == AggregateOf(CountsOf(RunMetrics(db, r), g))
    ensures SoundAggregate(db.aggregates[r][g], |CasesOf(db, r)|)
    ensures StorableCounts(CountsOf(RunMetrics(db, r), g))
  {
    FinishedRunHasTenAggregates(catalog, db, r);
    assert StorableAggregates(RunMetrics(db, r)) && db.aggregates[r] == AggregateRows(RunMetrics(db, r)) by { assert RunOk(db, r); }
    assert GroupCounts(RunMetrics(db, r))[g] == CountsOf(RunMetrics(db, r), g);
  }

  /** The same after any history of repository calls by any workers. */
  lemma ReachableRunsReproduceAggregates(catalog: Catalog, history: seq<Event>, r: Uuid, ids: seq<Uuid>, name: MetricName)
    requires var db := Exec(catalog, EMPTY, history);
             r in db.runs && TerminalRun(db.runs[r].state) && PositionOrder(db, r, ids)
    requires name in TerminalMetricNames
    ensures var db := Exec(catalog, EMPTY, history);
            var run := Index(Projection(db, r, ids).cases);
            var g := Group(name, db.runs[r].key.scoringPolicyVersion);
            r in db.aggregates && g in db.aggregates[r] && Reproduces(DeltaOf(run, run, name), db.aggregates[r][g])
  {
    InitialInvariant(catalog);
    EveryHistoryKeepsInvariant(catalog, EMPTY, history);
    SelfComparisonReproducesAggregates(catalog, Exec(catalog, EMPTY, history), r, ids, name);
  }

  // ---------------------------------------------------------------- No sum leaves the integer range

  lemma JointPartIsOwnPart(side: ComparisonCase, other: ComparisonCase, name: MetricName)
    ensures 0 <= JointNumerator(side, other, name) <= JointNumerator(side, side, name)
    ensures 0 <= JointDenominator(side, other, name) <= JointDenominator(side, side, name)
  {
  }

  lemma NumeratorsWithinOwn(side: map<Uuid, ComparisonCase>, other: map<Uuid, ComparisonCase>, cases: set<Uuid>, name: MetricName)
    requires cases <= side.Keys && cases <= other.Keys
    ensures 0 <= Sum(NumeratorsOf(side, other, cases, name)) <= Sum(OwnNumerators(side, name))
  {
    forall c | c in side ensures 0 <= OwnNumerators(side, name)[c] { JointPartIsOwnPart(side[c], side[c], name); }
    forall c | c in cases ensures 0 <= NumeratorsOf(side, other, cases, name)[c] <= OwnNumerators(side, name)[c] {
      JointPartIsOwnPart(side[c], other[c], name);
    }
    SumMonotone(NumeratorsOf(side, other, cases, name), OwnNumerators(side, name));
    SumMonotone(map[], NumeratorsOf(side, other, cases, name));
  }

  lemma DenominatorsWithinOwn(side: map<Uuid, ComparisonCase>, other: map<Uuid, ComparisonCase>, cases: set<Uuid>, name: MetricName)
    requires cases <= side.Keys && cases <= other.Keys
    ensures 0 <= Sum(DenominatorsOf(side, other, cases, name)) <= Sum(OwnDenominators(side, name))
  {
    forall c | c in side ensures 0 <= OwnDenominators(side, name)[c] { JointPartIsOwnPart(side[c], side[c], name); }
    forall c | c in cases ensures 0 <= DenominatorsOf(side, other, cases, name)[c] <= OwnDenominators(side, name)[c] {
      JointPartIsOwnPart(side[c], other[c], name);
    }
    SumMonotone(DenominatorsOf(side, other, cases, name), OwnDenominators(side, name));
    SumMonotone(map[], DenominatorsOf(side, other, cases, name));
  }

  /**
   Comparing a finished run with any other never leaves the 64-bit range, after any number of
   pairs: what finalisation checked once covers every partial sum of its side.
   */
  lemma ComparisonNeverOverflows(
    catalog: Catalog, db: Db, r: Uuid, ids: seq<Uuid>, other: map<Uuid, ComparisonCase>, cases: set<Uuid>, name: MetricName)
    requires Inv(catalog, db) && r in db.runs && TerminalRun(db.runs[r].state) && PositionOrder(db, r, ids)
    requires name in TerminalMetricNames
    requires cases <= Index(Projection(db, r, ids).cases).Keys && cases <= other.Keys
    ensures 0 <= Sum(NumeratorsOf(Index(Projection(db, r, ids).cases), other, cases, name)) <= MAX_INT64
    ensures 0 <= Sum(DenominatorsOf(Index(Projection(db, r, ids).cases), other, cases, name)) <= MAX_INT64
  {
    ProjectionRepresents(catalog, db, r, ids);
    OwnSumsFit(catalog, db, r, Index(Projection(db, r, ids).cases), Group(name, db.runs[r].key.scoringPolicyVersion));
    NumeratorsWithinOwn(Index(Projection(db, r, ids).cases), other, cases, name);
    DenominatorsWithinOwn(Index(Projection(db, r, ids).cases), other, cases, name);
  }

  lemma OwnSumsFit(catalog: Catalog, db: Db, r: Uuid, run: map<Uuid, ComparisonCase>, g: Group)
    requires Inv(catalog, db) && r in db.runs && TerminalRun(db.runs[r].state) && Represents(db, r, run)
    requires g in TenGroups(db.runs[r].key.scoringPolicyVersion)
    ensures Sum(OwnNumerators(run, g.name)) <= MAX_INT64 && Sum(OwnDenominators(run, g.name)) <= MAX_INT64
  {
    FinishedRunMatches(catalog, db, r, run, g);
    MatchedNumerators(RunMetrics(db, r), g, run, DatasetCases(db, RunMetrics(db, r)));
    MatchedDenominators(RunMetrics(db, r), g, run, DatasetCases(db, RunMetrics(db, r)));
    StoredAggregate(catalog, db, r, g);
  }

  // ---------------------------------------------------------------- The service

  datatype Outcome = InvalidRequest | RunNotFound | InvalidRun | Compared(result: ComparisonResult)

  class ComparisonService {
    const store: Repository

    constructor (store: Repository)
      ensures this.store == store
    {
      this.store := store;
    }

    /** In a reachable store, any two finished runs compare, and nothing else does. */
    method Compare(leftID: Uuid, rightID: Uuid) returns (outcome: Outcome, ghost leftIds: seq<Uuid>, ghost rightIds: seq<Uuid>)
      requires Inv(store.catalog, store.Tables())
      ensures outcome.InvalidRequest? <==> leftID == NIL || rightID == NIL
      ensures outcome.RunNotFound? ==> leftID !in store.runs || rightID !in store.runs
      ensures outcome.Compared? <==>
                && leftID != NIL && rightID != NIL && leftID in store.runs && rightID in store.runs
                && TerminalRun(store.runs[leftID].state) && TerminalRun(store.runs[rightID].state)
      ensures outcome.Compared? ==>
                && PositionOrder(store.Tables(), leftID, leftIds) && PositionOrder(store.Tables(), rightID, rightIds)
                && outcome.result == ResultOf(Projection(store.Tables(), leftID, leftIds), Projection(store.Tables(), rightID, rightIds))
    {
      leftIds, rightIds := [], [];
      if leftID == NIL || rightID == NIL {
        return InvalidRequest, [], [];
      }
      var db := store.Tables();
      var left, l := ReadComparisonRun(store.catalog, db, leftID);
      if left.None? {
        return RunNotFound, [], [];
      }
      var right, r := ReadComparisonRun(store.catalog, db, rightID);
      if right.None? {
        return RunNotFound, [], [];
      }
      FinishedRunsAreValid(store.catalog, db, leftID, l);
      FinishedRunsAreValid(store.catalog, db, rightID, r);
      var result := CompareRuns(left.value, right.value, leftID, rightID);
      if result.None? {
        return InvalidRun, l, r;
      }
      return Compared(result.value), l, r;
    }
  }
}
