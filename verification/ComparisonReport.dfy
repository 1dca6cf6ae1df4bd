/** What a comparison says about its two runs, read off their cases and metrics alone. */
module ComparisonReport {
  import opened Text
  import opened Evaluation
  import opened Sums
  import opened Ledger
  import opened LedgerInvariant
  import opened Comparison
  import opened LedgerComparison

  // ---------------------------------------------------------------- The two runs

  ghost function IDs(cases: seq<ComparisonCase>): set<Uuid> {
    set c | c in cases :: c.datasetCaseID
  }

  ghost function IDsIn(cases: seq<ComparisonCase>, state: CaseState): set<Uuid> {
    set c | c in cases && c.state == state :: c.datasetCaseID
  }

  ghost function Lost(cases: seq<ComparisonCase>): set<Uuid> {
    IDsIn(cases, Failed) + IDsIn(cases, Cancelled)
  }

  /** Case c of a run carries this scored metric. */
  ghost predicate ScoredAt(cases: seq<ComparisonCase>, c: Uuid, name: MetricName, m: ComparisonMetric) {
    m.name == name && m.state == Scored && exists item :: item in cases && item.datasetCaseID == c && m in item.metrics
  }

  ghost predicate HasScore(cases: seq<ComparisonCase>, c: Uuid, name: MetricName) {
    exists m :: ScoredAt(cases, c, name, m)
  }

  ghost function NumeratorAt(cases: seq<ComparisonCase>, c: Uuid, name: MetricName): int
    requires HasScore(cases, c, name)
  {
    var m :| ScoredAt(cases, c, name, m);
    if m.numerator.Some? then m.numerator.value else 0
  }

  ghost function DenominatorAt(cases: seq<ComparisonCase>, c: Uuid, name: MetricName): int
    requires HasScore(cases, c, name)
  {
    var m :| ScoredAt(cases, c, name, m);
    if m.denominator.Some? then m.denominator.value else 0
  }

  /** The dataset cases that carry a scored metric of this name in both runs. */
  ghost function ScoredPairs(left: seq<ComparisonCase>, right: seq<ComparisonCase>, name: MetricName): set<Uuid> {
    set c | c in IDs(left) && HasScore(left, c, name) && HasScore(right, c, name)
  }

  ghost function NumeratorsAt(cases: seq<ComparisonCase>, pairs: set<Uuid>, name: MetricName): map<Uuid, int>
    requires forall c | c in pairs :: HasScore(cases, c, name)
  {
    map c | c in pairs :: NumeratorAt(cases, c, name)
  }

  ghost function DenominatorsAt(cases: seq<ComparisonCase>, pairs: set<Uuid>, name: MetricName): map<Uuid, int>
    requires forall c | c in pairs :: HasScore(cases, c, name)
  {
    map c | c in pairs :: DenominatorAt(cases, c, name)
  }

  // ---------------------------------------------------------------- What is reported

  ghost predicate TotalsReport(totals: ComparisonTotals, left: seq<ComparisonCase>, right: seq<ComparisonCase>) {
    && totals.leftCases == |left| && totals.rightCases == |right|
    && totals.pairedCases == |IDs(left) * IDs(right)|
    && totals.leftUnpaired == |IDs(left) - IDs(right)| && totals.rightUnpaired == |IDs(right) - IDs(left)|
    && totals.failedOrCancelled == |IDs(left) * IDs(right) * (Lost(left) + Lost(right))|
    && totals.leftFailed == |IDsIn(left, Failed)| && totals.leftCancelled == |IDsIn(left, Cancelled)|
    && totals.rightFailed == |IDsIn(right, Failed)| && totals.rightCancelled == |IDsIn(right, Cancelled)|
  }

  /** The sums of a component over the pairs scored on both sides. */
  ghost predicate SumsReport(d: MetricDelta, left: seq<ComparisonCase>, right: seq<ComparisonCase>, name: MetricName) {
    var pairs := ScoredPairs(left, right, name);
    && d.name == name && d.pairedCases == |pairs|
    && d.state == (if pairs == {} then NotScored else Scored)
    && d.leftNumerator == Sum(NumeratorsAt(left, pairs, name)) && d.leftDenominator == Sum(DenominatorsAt(left, pairs, name))
    && d.rightNumerator == Sum(NumeratorsAt(right, pairs, name)) && d.rightDenominator == Sum(DenominatorsAt(right, pairs, name))
  }

  /** The quotients of the sums and their difference, positive exactly when the right quotient is the larger. */
  predicate QuotientsReport(d: MetricDelta) {
    && QuotientsStand(d)
    && (d.state == Scored ==>
          && d.leftDenominator > 0 && d.rightDenominator > 0
          && (d.delta.value > 0.0 <==> d.rightNumerator * d.leftDenominator > d.leftNumerator * d.rightDenominator))
  }

  /** Each listed name stands for a field of the key that differs, and every such field is listed. */
  predicate DifferencesReport(differences: seq<string>, left: ComparisonKey, right: ComparisonKey) {
    && ("dataset_revision_id" in differences <==> left.datasetRevisionID != right.datasetRevisionID)
    && ("dataset_content_sha256" in differences <==> left.datasetContentSHA256 != right.datasetContentSHA256)
    && ("corpus_id" in differences <==> left.corpusID != right.corpusID)
    && ("snapshot_id" in differences <==> left.snapshotID != right.snapshotID)
    && ("snapshot_manifest_sha256" in differences <==> left.snapshotManifestSHA256 != right.snapshotManifestSHA256)
    && ("ordered_case_set_sha256" in differences <==> left.orderedCaseSetSHA256 != right.orderedCaseSetSHA256)
    && ("scoring_policy_version" in differences <==> left.scoringPolicyVersion != right.scoringPolicyVersion)
  }

  /** The fields of the key, in their order. */
  const KEY_FIELDS: seq<string> :=
    ["dataset_revision_id", "dataset_content_sha256", "corpus_id", "snapshot_id", "snapshot_manifest_sha256",
     "ordered_case_set_sha256", "scoring_policy_version"]

  ghost predicate Precedes(names: seq<string>, first: string, second: string) {
    exists m, n :: 0 <= m < n < |names| && names[m] == first && names[n] == second
  }

  ghost predicate InKeyOrder(differences: seq<string>) {
    forall i, j | 0 <= i < j < |differences| :: Precedes(KEY_FIELDS, differences[i], differences[j])
  }

  ghost predicate Report(result: ComparisonResult, left: ComparisonRun, right: ComparisonRun) {
    && result.left == left.experiment && result.right == right.experiment
    && match result
       case NonComparable(_, _, differences) => left.key != right.key && DifferencesReport(differences, left.key, right.key) && InKeyOrder(differences)
       case Comparable(_, _, totals, metrics) =>
         && left.key == right.key && TotalsReport(totals, left.cases, right.cases) && |metrics| == 10
         && forall i {:trigger metrics[i]} | 0 <= i < 10 ::
              SumsReport(metrics[i], left.cases, right.cases, ALPHABETICAL[i]) && QuotientsReport(metrics[i])
  }

  // ---------------------------------------------------------------- Totals

  lemma IndexIsIDs(cases: seq<ComparisonCase>, policy: string)
    requires ValidComparisonCases(cases, policy)
    ensures Index(cases).Keys == IDs(cases)
    ensures forall c | c in cases :: c.datasetCaseID in Index(cases) && Index(cases)[c.datasetCaseID] == c
  {
    IndexLookup(cases);
    forall c | c in cases ensures c.datasetCaseID in Index(cases) && Index(cases)[c.datasetCaseID] == c {
      var i :| 0 <= i < |cases| && cases[i] == c;
      assert ValidComparisonCase(cases[i], policy);
    }
    forall c | c in Index(cases) ensures c in IDs(cases) { IndexHolds(cases, c); }
  }

  lemma OneMoreID(cases: seq<ComparisonCase>, n: nat)
    requires n < |cases| && forall i, j | 0 <= i < j < |cases| :: cases[i].datasetCaseID != cases[j].datasetCaseID
    ensures IDs(cases[..n + 1]) == IDs(cases[..n]) + {cases[n].datasetCaseID} && cases[n].datasetCaseID !in IDs(cases[..n])
  {
    assert cases[..n + 1] == cases[..n] + [cases[n]];
    forall c | c in cases[..n] ensures c.datasetCaseID != cases[n].datasetCaseID {
      var i :| 0 <= i < n && cases[i] == c;
    }
  }

  lemma {:induction false} AsManyIDs(cases: seq<ComparisonCase>, n: nat)
    requires n <= |cases| && forall i, j | 0 <= i < j < |cases| :: cases[i].datasetCaseID != cases[j].datasetCaseID
    ensures |IDs(cases[..n])| == n
  {
    if n > 0 {
      AsManyIDs(cases, n - 1);
      OneMoreID(cases, n - 1);
    }
  }

  lemma StatesAreIDsIn(cases: seq<ComparisonCase>, policy: string, state: CaseState)
    requires ValidComparisonCases(cases, policy)
    ensures InCaseState(Index(cases), state) == IDsIn(cases, state)
  {
    IndexIsIDs(cases, policy);
    forall c | c in InCaseState(Index(cases), state) ensures c in IDsIn(cases, state) {
      IndexHolds(cases, c);
    }
  }

  lemma LostAreIneligible(left: seq<ComparisonCase>, right: seq<ComparisonCase>, policy: string)
    requires ValidComparisonCases(left, policy) && ValidComparisonCases(right, policy)
    ensures IDs(left) * IDs(right) - Eligible(Index(left), Index(right)) == IDs(left) * IDs(right) * (Lost(left) + Lost(right))
  {
    IndexIsIDs(left, policy);
    IndexIsIDs(right, policy);
    LostIsFailure(left, policy);
    LostIsFailure(right, policy);
  }

  lemma LostIsFailure(cases: seq<ComparisonCase>, policy: string)
    requires ValidComparisonCases(cases, policy)
    ensures forall c | c in Index(cases) :: c in Lost(cases) <==> TerminalFailure(Index(cases)[c].state)
  {
    StatesAreIDsIn(cases, policy, Failed);
    StatesAreIDsIn(cases, policy, Cancelled);
  }

  lemma TotalsAreReported(left: seq<ComparisonCase>, right: seq<ComparisonCase>, policy: string)
    requires ValidComparisonCases(left, policy) && ValidComparisonCases(right, policy)
    ensures TotalsReport(TotalsOf(Index(left), Index(right)), left, right)
  {
    IndexIsIDs(left, policy);
    IndexIsIDs(right, policy);
    AsManyIDs(left, |left|);
    AsManyIDs(right, |right|);
    assert left[..|left|] == left && right[..|right|] == right;
    assert |Index(left)| == |Index(left).Keys| && |Index(right)| == |Index(right).Keys|;
    LostAreIneligible(left, right, policy);
    StatesAreIDsIn(left, policy, Failed);
    StatesAreIDsIn(left, policy, Cancelled);
    StatesAreIDsIn(right, policy, Failed);
    StatesAreIDsIn(right, policy, Cancelled);
  }

  // ---------------------------------------------------------------- Sums

  /** A scored metric of a run is the one its indexed case carries. */
  lemma ScoreIsIndexed(cases: seq<ComparisonCase>, policy: string, c: Uuid, name: MetricName, m: ComparisonMetric)
    requires ValidComparisonCases(cases, policy)
    ensures ScoredAt(cases, c, name, m) <==>
              c in Index(cases) && name in ByName(Index(cases)[c].metrics) && ByName(Index(cases)[c].metrics)[name] == m
              && ScoredComparisonMetric(m)
  {
    IndexIsIDs(cases, policy);
    if c in Index(cases) {
      IndexHolds(cases, c);
      var item := Index(cases)[c];
      var n :| 0 <= n < |cases| && cases[n] == item;
      assert ValidComparisonCase(cases[n], policy);
      MetricIsNamed(item, policy, name, m);
    }
  }

  lemma MetricIsNamed(item: ComparisonCase, policy: string, name: MetricName, m: ComparisonMetric)
    requires ValidComparisonMetrics(item, policy)
    ensures m in item.metrics && m.name == name && m.state == Scored <==>
              name in ByName(item.metrics) && ByName(item.metrics)[name] == m && ScoredComparisonMetric(m)
  {
    ByNameLookup(item.metrics);
    if m in item.metrics {
      var i :| 0 <= i < |item.metrics| && item.metrics[i] == m;
      assert ValidComparisonMetric(item.state, item.metrics[i], policy);
    }
    if name in ByName(item.metrics) {
      var i :| 0 <= i < |item.metrics| && item.metrics[i].name == name;
      assert ByName(item.metrics)[name] == item.metrics[i];
    }
  }

  lemma ScoreIsUnique(cases: seq<ComparisonCase>, policy: string, c: Uuid, name: MetricName)
    requires ValidComparisonCases(cases, policy)
    ensures HasScore(cases, c, name) <==>
              c in Index(cases) && name in ByName(Index(cases)[c].metrics) && ScoredComparisonMetric(ByName(Index(cases)[c].metrics)[name])
    ensures HasScore(cases, c, name) ==>
              var m := ByName(Index(cases)[c].metrics)[name];
              NumeratorAt(cases, c, name) == m.numerator.value && DenominatorAt(cases, c, name) == m.denominator.value
  {
    forall m ensures ScoredAt(cases, c, name, m) <==>
              c in Index(cases) && name in ByName(Index(cases)[c].metrics) && ByName(Index(cases)[c].metrics)[name] == m
              && ScoredComparisonMetric(m)
    {
      ScoreIsIndexed(cases, policy, c, name, m);
    }
    if c in Index(cases) && name in ByName(Index(cases)[c].metrics) && ScoredComparisonMetric(ByName(Index(cases)[c].metrics)[name]) {
      assert ScoredAt(cases, c, name, ByName(Index(cases)[c].metrics)[name]);
    }
  }

  /** A scored case did not fail. */
  lemma ScoredIsNotLost(cases: seq<ComparisonCase>, policy: string, c: Uuid, name: MetricName)
    requires ValidComparisonCases(cases, policy) && HasScore(cases, c, name)
    ensures c in Index(cases) && !TerminalFailure(Index(cases)[c].state)
  {
    ScoreIsUnique(cases, policy, c, name);
    IndexHolds(cases, c);
    var item := Index(cases)[c];
    var n :| 0 <= n < |cases| && cases[n] == item;
    assert ValidComparisonCase(cases[n], policy);
    ByNameLookup(item.metrics);
    var i :| 0 <= i < |item.metrics| && item.metrics[i].name == name;
    assert ValidComparisonMetric(item.state, item.metrics[i], policy);
  }

  lemma BothScored(left: seq<ComparisonCase>, right: seq<ComparisonCase>, policy: string, name: MetricName, c: Uuid)
    requires ValidComparisonCases(left, policy) && ValidComparisonCases(right, policy)
    ensures HasScore(left, c, name) && HasScore(right, c, name) <==>
              c in Index(left) && c in Index(right) && JointlyScored(Index(left)[c], Index(right)[c], name)
  {
    ScoreIsUnique(left, policy, c, name);
    ScoreIsUnique(right, policy, c, name);
  }

  lemma ScoredPairIsJoint(left: seq<ComparisonCase>, right: seq<ComparisonCase>, policy: string, name: MetricName, c: Uuid)
    requires ValidComparisonCases(left, policy) && ValidComparisonCases(right, policy)
    ensures c in Jointly(Index(left), Index(right), Eligible(Index(left), Index(right)), name) <==> c in ScoredPairs(left, right, name)
  {
    IndexIsIDs(left, policy);
    BothScored(left, right, policy, name, c);
    if HasScore(left, c, name) && HasScore(right, c, name) {
      ScoredIsNotLost(left, policy, c, name);
      ScoredIsNotLost(right, policy, c, name);
    }
  }

  /** Leaving failed cases out loses no pair: the pairs counted are all that are scored on both sides. */
  lemma JointlyIsScoredPairs(left: seq<ComparisonCase>, right: seq<ComparisonCase>, policy: string, name: MetricName)
    requires ValidComparisonCases(left, policy) && ValidComparisonCases(right, policy)
    ensures Jointly(Index(left), Index(right), Eligible(Index(left), Index(right)), name) == ScoredPairs(left, right, name)
  {
    var l, r := Index(left), Index(right);
    forall c ensures c in Jointly(l, r, Eligible(l, r), name) <==> c in ScoredPairs(left, right, name) {
      ScoredPairIsJoint(left, right, policy, name, c);
    }
  }

  lemma SideSums(side: seq<ComparisonCase>, other: seq<ComparisonCase>, policy: string, cases: set<Uuid>, pairs: set<Uuid>, name: MetricName)
    requires ValidComparisonCases(side, policy) && cases <= Index(side).Keys && cases <= Index(other).Keys
    requires pairs == Jointly(Index(side), Index(other), cases, name)
    requires forall c | c in pairs :: HasScore(side, c, name)
    ensures Sum(NumeratorsOf(Index(side), Index(other), cases, name)) == Sum(NumeratorsAt(side, pairs, name))
    ensures Sum(DenominatorsOf(Index(side), Index(other), cases, name)) == Sum(DenominatorsAt(side, pairs, name))
  {
    forall c | c in pairs ensures NumeratorAt(side, c, name) == JointNumerator(Index(side)[c], Index(other)[c], name)
                           && DenominatorAt(side, c, name) == JointDenominator(Index(side)[c], Index(other)[c], name)
    {
      ScoreIsUnique(side, policy, c, name);
    }
    SumRestrict(NumeratorsOf(Index(side), Index(other), cases, name), NumeratorsAt(side, pairs, name));
    SumRestrict(DenominatorsOf(Index(side), Index(other), cases, name), DenominatorsAt(side, pairs, name));
  }

  lemma SumsAreReported(left: seq<ComparisonCase>, right: seq<ComparisonCase>, policy: string, name: MetricName)
    requires ValidComparisonCases(left, policy) && ValidComparisonCases(right, policy)
    ensures SumsReport(DeltaOf(Index(left), Index(right), name), left, right, name)
  {
    var l, r := Index(left), Index(right);
    var cases, pairs := Eligible(l, r), ScoredPairs(left, right, name);
    JointlyIsScoredPairs(left, right, policy, name);
    JointlySymmetric(l, r, cases, name);
    SideSums(left, right, policy, cases, pairs, name);
    SideSums(right, left, policy, cases, pairs, name);
  }

  // ---------------------------------------------------------------- Quotients

  lemma CrossProducts(a: int, b: int, c: int, d: int)
    requires b > 0 && d > 0
    ensures c as real / d as real - a as real / b as real > 0.0 <==> c * b > a * d
  {
    var left, right := a as real / b as real, c as real / d as real;
    assert (right - left) * (b as real * d as real) == c as real * b as real - a as real * d as real by {
      assert right * d as real == c as real && left * b as real == a as real;
      assert right * (b as real * d as real) == (right * d as real) * b as real;
      assert left * (b as real * d as real) == (left * b as real) * d as real;
    }
    Positive(right - left, b as real * d as real);
  }

  lemma Positive(x: real, y: real)
    requires y > 0.0
    ensures x > 0.0 <==> x * y > 0.0
  {
  }

  lemma QuotientsAreReported(left: map<Uuid, ComparisonCase>, right: map<Uuid, ComparisonCase>, name: MetricName)
    ensures QuotientsReport(DeltaOf(left, right, name))
  {
    ScoredDeltasDivide(left, right, Eligible(left, right), name);
    var d := DeltaOf(left, right, name);
    if d.state == Scored {
      CrossProducts(d.leftNumerator, d.leftDenominator, d.rightNumerator, d.rightDenominator);
    }
  }

  // ---------------------------------------------------------------- Differences

  lemma {:induction false} DifferencesNameFields(fields: seq<KeyField>)
    ensures forall name :: name in Differences(fields) <==> exists i :: 0 <= i < |fields| && fields[i].name == name && !fields[i].equal
  {
    if fields != [] {
      DifferencesNameFields(fields[..|fields| - 1]);
    }
  }

  ghost predicate NamesDiffer(fields: seq<KeyField>) {
    forall i, j | 0 <= i < j < |fields| :: fields[i].name != fields[j].name
  }

  lemma EachNameDecides(fields: seq<KeyField>, i: nat)
    requires NamesDiffer(fields) && i < |fields|
    ensures fields[i].name in Differences(fields) <==> !fields[i].equal
  {
    DifferencesNameFields(fields);
    if fields[i].name in Differences(fields) {
      var j :| 0 <= j < |fields| && fields[j].name == fields[i].name && !fields[j].equal;
      assert i == j;
    }
  }

  lemma KeyNamesDiffer(left: ComparisonKey, right: ComparisonKey)
    ensures |KeyFields(left, right)| == 7 && NamesDiffer(KeyFields(left, right))
  {
    var fields := KeyFields(left, right);
    assert |fields[0].name| == 19 && |fields[1].name| == 22 && |fields[2].name| == 9 && |fields[3].name| == 11;
    assert |fields[4].name| == 24 && |fields[5].name| == 23 && |fields[6].name| == 22;
    assert fields[1].name[21] != fields[6].name[21];
  }

  lemma DifferencesAreReported(left: ComparisonKey, right: ComparisonKey)
    ensures DifferencesReport(Differences(KeyFields(left, right)), left, right)
  {
    var fields := KeyFields(left, right);
    KeyNamesDiffer(left, right);
    forall i: nat | i < 7 ensures fields[i].name in Differences(fields) <==> !fields[i].equal {
      EachNameDecides(fields, i);
    }
    FieldsReported(Differences(fields), left, right, fields);
  }

  function FieldNames(fields: seq<KeyField>): seq<string> {
    seq(|fields|, i requires 0 <= i < |fields| => fields[i].name)
  }

  lemma {:induction false} DifferencesKeepOrder(fields: seq<KeyField>)
    ensures forall i, j | 0 <= i < j < |Differences(fields)| :: Precedes(FieldNames(fields), Differences(fields)[i], Differences(fields)[j])
  {
    if fields != [] {
      var earlier, last, listed := fields[..|fields| - 1], fields[|fields| - 1], Differences(fields);
      DifferencesKeepOrder(earlier);
      DifferencesNameFields(earlier);
      forall i, j | 0 <= i < j < |listed| ensures Precedes(FieldNames(fields), listed[i], listed[j]) {
        if j < |Differences(earlier)| {
          assert Precedes(FieldNames(earlier), listed[i], listed[j]);
          var m, n :| 0 <= m < n < |earlier| && FieldNames(earlier)[m] == listed[i] && FieldNames(earlier)[n] == listed[j];
          assert FieldNames(fields)[m] == listed[i] && FieldNames(fields)[n] == listed[j];
        } else {
          assert listed[i] in Differences(earlier);
          var m :| 0 <= m < |earlier| && earlier[m].name == listed[i];
          assert FieldNames(fields)[m] == listed[i] && FieldNames(fields)[|fields| - 1] == listed[j];
        }
      }
    }
  }

  lemma KeyFieldsAreNamed(left: ComparisonKey, right: ComparisonKey)
    ensures FieldNames(KeyFields(left, right)) == KEY_FIELDS
  {
    var fields, names := KeyFields(left, right), KEY_FIELDS;
    assert |fields| == |names| == 7;
    assert fields[0].name == names[0] && fields[1].name == names[1] && fields[2].name == names[2] && fields[3].name == names[3];
    assert fields[4].name == names[4] && fields[5].name == names[5] && fields[6].name == names[6];
  }

  lemma FieldsReported(differences: seq<string>, left: ComparisonKey, right: ComparisonKey, fields: seq<KeyField>)
    requires fields == KeyFields(left, right) && |fields| == 7
    requires forall i: nat | i < 7 :: fields[i].name in differences <==> !fields[i].equal
    ensures DifferencesReport(differences, left, right)
  {
    assert fields[0].name in differences <==> !fields[0].equal;
    assert fields[1].name in differences <==> !fields[1].equal;
    assert fields[2].name in differences <==> !fields[2].equal;
    assert fields[3].name in differences <==> !fields[3].equal;
    assert fields[4].name in differences <==> !fields[4].equal;
    assert fields[5].name in differences <==> !fields[5].equal;
    assert fields[6].name in differences <==> !fields[6].equal;
  }

  // ---------------------------------------------------------------- The result

  /** A comparison of two valid runs reports on exactly their cases and metrics. */
  lemma ResultsAreReports(left: ComparisonRun, right: ComparisonRun, leftID: Uuid, rightID: Uuid)
    requires ValidComparisonRun(left, leftID) && ValidComparisonRun(right, rightID)
    ensures Report(ResultOf(left, right), left, right)
  {
    ComparableExactlyOnEqualKeys(left, right);
    if left.key == right.key {
      var policy := left.key.scoringPolicyVersion;
      TotalsAreReported(left.cases, right.cases, policy);
      forall i | 0 <= i < 10
        ensures SumsReport(DeltaOf(Index(left.cases), Index(right.cases), ALPHABETICAL[i]), left.cases, right.cases, ALPHABETICAL[i])
        ensures QuotientsReport(DeltaOf(Index(left.cases), Index(right.cases), ALPHABETICAL[i]))
      {
        SumsAreReported(left.cases, right.cases, policy, ALPHABETICAL[i]);
        QuotientsAreReported(Index(left.cases), Index(right.cases), ALPHABETICAL[i]);
      }
    } else {
      DifferencesAreReported(left.key, right.key);
      DifferencesKeepOrder(KeyFields(left.key, right.key));
      KeyFieldsAreNamed(left.key, right.key);
    }
  }

  // ---------------------------------------------------------------- Two stored runs

  ghost function StoredIDs(db: Db, r: Uuid): set<Uuid> {
    set c | c in CasesOf(db, r) :: db.cases[c].datasetCaseID
  }

  ghost function StoredIDsIn(db: Db, r: Uuid, state: CaseState): set<Uuid> {
    set c | c in CasesOf(db, r) && db.cases[c].state == state :: db.cases[c].datasetCaseID
  }

  /** A case of run r for dataset case d has this scored metric row. */
  ghost predicate StoredScore(db: Db, r: Uuid, d: Uuid, name: MetricName, row: MetricRow) {
    && row.state == Scored
    && exists c :: c in CasesOf(db, r) && db.cases[c].datasetCaseID == d && c in db.metrics && name in db.metrics[c] && db.metrics[c][name] == row
  }

  /** A scored metric row as comparison reads it. */
  predicate ReadAs(name: MetricName, row: MetricRow, m: ComparisonMetric) {
    && m.name == name && m.state == row.state && m.scorerVersion == row.scorerVersion
    && m.numerator == row.numerator && m.denominator == row.denominator
  }

  /** The compared cases are the stored ones: the same dataset cases in the same states, with the same scores. */
  ghost predicate ReadsRun(db: Db, r: Uuid, cases: seq<ComparisonCase>) {
    && IDs(cases) == StoredIDs(db, r)
    && (forall state :: IDsIn(cases, state) == StoredIDsIn(db, r, state))
    && forall d, name, m :: ScoredAt(cases, d, name, m) <==>
         exists row :: StoredScore(db, r, d, name, row) && ReadAs(name, row, m)
  }

  lemma {:induction false} ListedMetrics(rows: map<MetricName, MetricRow>, names: seq<MetricName>, m: ComparisonMetric)
    ensures m in ListMetrics(rows, names) <==>
              m.name in names && m.name in rows && m.state == rows[m.name].state && m.scorerVersion == rows[m.name].scorerVersion
              && m.numerator == rows[m.name].numerator && m.denominator == rows[m.name].denominator
  {
    if names != [] {
      ListedMetrics(rows, names[..|names| - 1], m);
    }
  }

  lemma ReadCase(db: Db, r: Uuid, ids: seq<Uuid>, item: ComparisonCase)
    requires r in db.runs && PositionOrder(db, r, ids)
    ensures item in Projection(db, r, ids).cases <==> exists c :: c in CasesOf(db, r) && item == ProjectCase(db, c)
  {
    var cases := Projection(db, r, ids).cases;
    if item in cases {
      var i :| 0 <= i < |cases| && cases[i] == item;
      assert ids[i] in ids;
    }
    if c :| c in CasesOf(db, r) && item == ProjectCase(db, c) {
      assert c in ids;
      var i :| 0 <= i < |ids| && ids[i] == c;
      assert cases[i] == item;
    }
  }

  lemma ReadCaseMetrics(catalog: Catalog, db: Db, c: Uuid, m: ComparisonMetric)
    requires Inv(catalog, db) && c in db.cases
    ensures m in ProjectCase(db, c).metrics && m.state == Scored <==>
              c in db.metrics && m.name in db.metrics[c] && db.metrics[c][m.name].state == Scored
              && ReadAs(m.name, db.metrics[c][m.name], m)
  {
    if c in db.metrics {
      assert CaseOk(catalog, db, c);
      ListedMetrics(db.metrics[c], ALPHABETICAL, m);
      EveryNameIsListed(m.name);
    }
  }

  lemma ReadScoreIsStored(catalog: Catalog, db: Db, r: Uuid, ids: seq<Uuid>, d: Uuid, name: MetricName, m: ComparisonMetric)
    requires Inv(catalog, db) && r in db.runs && PositionOrder(db, r, ids) && ScoredAt(Projection(db, r, ids).cases, d, name, m)
    ensures exists row :: StoredScore(db, r, d, name, row) && ReadAs(name, row, m)
  {
    var item :| item in Projection(db, r, ids).cases && item.datasetCaseID == d && m in item.metrics;
    ReadCase(db, r, ids, item);
    var c :| c in CasesOf(db, r) && item == ProjectCase(db, c);
    ReadCaseMetrics(catalog, db, c, m);
    assert StoredScore(db, r, d, name, db.metrics[c][name]) && ReadAs(name, db.metrics[c][name], m);
  }

  lemma StoredScoreIsRead(
    catalog: Catalog, db: Db, r: Uuid, ids: seq<Uuid>, d: Uuid, name: MetricName, row: MetricRow, m: ComparisonMetric)
    requires Inv(catalog, db) && r in db.runs && PositionOrder(db, r, ids) && StoredScore(db, r, d, name, row) && ReadAs(name, row, m)
    ensures ScoredAt(Projection(db, r, ids).cases, d, name, m)
  {
    var c :| c in CasesOf(db, r) && db.cases[c].datasetCaseID == d && c in db.metrics && name in db.metrics[c] && db.metrics[c][name] == row;
    ReadCaseMetrics(catalog, db, c, m);
    ReadCase(db, r, ids, ProjectCase(db, c));
    assert ProjectCase(db, c) in Projection(db, r, ids).cases;
  }

  lemma ScoresAreStored(catalog: Catalog, db: Db, r: Uuid, ids: seq<Uuid>, d: Uuid, name: MetricName, m: ComparisonMetric)
    requires Inv(catalog, db) && r in db.runs && PositionOrder(db, r, ids)
    ensures ScoredAt(Projection(db, r, ids).cases, d, name, m) <==> exists row :: StoredScore(db, r, d, name, row) && ReadAs(name, row, m)
  {
    if ScoredAt(Projection(db, r, ids).cases, d, name, m) {
      ReadScoreIsStored(catalog, db, r, ids, d, name, m);
    }
    if row :| StoredScore(db, r, d, name, row) && ReadAs(name, row, m) {
      StoredScoreIsRead(catalog, db, r, ids, d, name, row, m);
    }
  }

  lemma StatesAreStored(db: Db, r: Uuid, ids: seq<Uuid>, state: CaseState)
    requires r in db.runs && PositionOrder(db, r, ids)
    ensures IDsIn(Projection(db, r, ids).cases, state) == StoredIDsIn(db, r, state)
    ensures IDs(Projection(db, r, ids).cases) == StoredIDs(db, r)
  {
    var cases := Projection(db, r, ids).cases;
    forall item | item in cases ensures exists c :: c in CasesOf(db, r) && item == ProjectCase(db, c) {
      ReadCase(db, r, ids, item);
    }
    forall c | c in CasesOf(db, r) ensures ProjectCase(db, c) in cases {
      ReadCase(db, r, ids, ProjectCase(db, c));
    }
  }

  lemma ProjectionReadsRun(catalog: Catalog, db: Db, r: Uuid, ids: seq<Uuid>)
    requires Inv(catalog, db) && r in db.runs && PositionOrder(db, r, ids)
    ensures ReadsRun(db, r, Projection(db, r, ids).cases)
  {
    forall state ensures IDsIn(Projection(db, r, ids).cases, state) == StoredIDsIn(db, r, state) { StatesAreStored(db, r, ids, state); }
    StatesAreStored(db, r, ids, Failed);
    forall d, name, m ensures ScoredAt(Projection(db, r, ids).cases, d, name, m) <==>
        exists row :: StoredScore(db, r, d, name, row) && ReadAs(name, row, m)
    {
      ScoresAreStored(catalog, db, r, ids, d, name, m);
    }
  }

  /**
   Comparing two finished runs of a sound ledger reports on exactly their stored cases, states and scores, under
   their own experiments; they are comparable exactly when their stored keys agree.
   */
  lemma StoredRunsAreReported(catalog: Catalog, db: Db, left: Uuid, leftIds: seq<Uuid>, right: Uuid, rightIds: seq<Uuid>)
    requires Inv(catalog, db) && left in db.runs && right in db.runs
    requires TerminalRun(db.runs[left].state) && TerminalRun(db.runs[right].state)
    requires PositionOrder(db, left, leftIds) && PositionOrder(db, right, rightIds)
    ensures var l, r := Projection(db, left, leftIds), Projection(db, right, rightIds);
            && ReadsRun(db, left, l.cases) && ReadsRun(db, right, r.cases) && Report(ResultOf(l, r), l, r)
            && ResultOf(l, r).left == db.runs[left].experiment && ResultOf(l, r).right == db.runs[right].experiment
            && (ResultOf(l, r).Comparable? <==> db.runs[left].key == db.runs[right].key)
  {
    ProjectionReadsRun(catalog, db, left, leftIds);
    ProjectionReadsRun(catalog, db, right, rightIds);
    FinishedRunsAreValid(catalog, db, left, leftIds);
    FinishedRunsAreValid(catalog, db, right, rightIds);
    ResultsAreReports(Projection(db, left, leftIds), Projection(db, right, rightIds), left, right);
  }
}
