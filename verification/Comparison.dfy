/** Direct comparison of two stored runs: validation, pairing, summed metric deltas. */
module Comparison {
  import opened Text
  import opened Evaluation
  import opened Sums
  import opened Ledger

  // ---------------------------------------------------------------- Values

  datatype ComparisonMetric = ComparisonMetric(
    name: MetricName, state: MetricState, scorerVersion: string, numerator: Option<int>, denominator: Option<int>)

  datatype ComparisonCase = ComparisonCase(datasetCaseID: Uuid, state: CaseState, metrics: seq<ComparisonMetric>)

  datatype ComparisonRun = ComparisonRun(
    id: Uuid, state: RunState, key: ComparisonKey, experiment: Experiment, cases: seq<ComparisonCase>)

  datatype ComparisonTotals = ComparisonTotals(
    leftCases: nat, rightCases: nat, pairedCases: nat, leftUnpaired: nat, rightUnpaired: nat, failedOrCancelled: nat,
    leftFailed: nat, leftCancelled: nat, rightFailed: nat, rightCancelled: nat)

  datatype MetricDelta = MetricDelta(
    name: MetricName, state: MetricState, pairedCases: nat,
    leftNumerator: int, leftDenominator: int, rightNumerator: int, rightDenominator: int,
    leftValue: Option<real>, rightValue: Option<real>, delta: Option<real>)

  datatype ComparisonResult =
    | Comparable(left: Experiment, right: Experiment, totals: ComparisonTotals, metrics: seq<MetricDelta>)
    | NonComparable(left: Experiment, right: Experiment, differences: seq<string>)

  // ---------------------------------------------------------------- Validation

  predicate ScoredComparisonMetric(m: ComparisonMetric) {
    && m.name != OtherMetric("") && m.state == Scored && m.numerator.Some? && m.denominator.Some?
    && m.numerator.value >= 0 && m.denominator.value > 0
  }

  predicate ValidUnscored(m: ComparisonMetric) {
    && (m.state == NotApplicable || m.state == NotScored || m.state == NeedsHumanReview)
    && m.numerator.None? && m.denominator.None?
  }

  predicate ValidComparisonMetric(state: CaseState, m: ComparisonMetric, policy: string) {
    && m.name in TerminalMetricNames && m.scorerVersion == policy
    && (TerminalFailure(state) ==> m.state != Scored)
    && (if m.state == Scored then ScoredComparisonMetric(m) else ValidUnscored(m))
  }

  ghost predicate DistinctNames(metrics: seq<ComparisonMetric>) {
    forall i, j | 0 <= i < j < |metrics| :: metrics[i].name != metrics[j].name
  }

  ghost predicate ValidComparisonMetrics(c: ComparisonCase, policy: string) {
    && |c.metrics| == 10 && DistinctNames(c.metrics)
    && forall i | 0 <= i < |c.metrics| :: ValidComparisonMetric(c.state, c.metrics[i], policy)
  }

  ghost predicate ValidComparisonCase(c: ComparisonCase, policy: string) {
    c.datasetCaseID != NIL && TerminalCase(c.state) && ValidComparisonMetrics(c, policy)
  }

  ghost predicate ValidComparisonCases(cases: seq<ComparisonCase>, policy: string) {
    && cases != []
    && (forall i | 0 <= i < |cases| :: ValidComparisonCase(cases[i], policy))
    && (forall i, j | 0 <= i < j < |cases| :: cases[i].datasetCaseID != cases[j].datasetCaseID)
  }

  predicate ValidComparisonHeader(run: ComparisonRun, wantID: Uuid) {
    && run.id == wantID && run.key.datasetRevisionID != NIL && run.key.corpusID != NIL && run.key.snapshotID != NIL
    && run.key.datasetContentSHA256 != "" && run.key.snapshotManifestSHA256 != "" && run.key.orderedCaseSetSHA256 != ""
    && run.key.scoringPolicyVersion != ""
    && TerminalRun(run.state)
  }

  ghost predicate ValidComparisonRun(run: ComparisonRun, wantID: Uuid) {
    ValidComparisonHeader(run, wantID) && ValidComparisonCases(run.cases, run.key.scoringPolicyVersion)
  }

  ghost function NamesOf(metrics: seq<ComparisonMetric>): set<MetricName> {
    set m | m in metrics :: m.name
  }

  lemma NameStep(metrics: seq<ComparisonMetric>, n: nat)
    requires n < |metrics| && DistinctNames(metrics[..n])
    ensures NamesOf(metrics[..n + 1]) == NamesOf(metrics[..n]) + {metrics[n].name}
    ensures DistinctNames(metrics[..n + 1]) <==> metrics[n].name !in NamesOf(metrics[..n])
    ensures !DistinctNames(metrics[..n + 1]) ==> !DistinctNames(metrics)
  {
    var longer := metrics[..n + 1];
    assert longer == metrics[..n] + [metrics[n]];
    if DistinctNames(longer) {
      forall m | m in metrics[..n] ensures m.name != metrics[n].name {
        var i :| 0 <= i < n && metrics[..n][i] == m;
        assert longer[i] == m && longer[n] == metrics[n];
      }
    } else {
      var i, j :| 0 <= i < j < |longer| && longer[i].name == longer[j].name;
      assert metrics[i] == longer[i] && metrics[j] == longer[j];
    }
  }

  lemma {:induction false} DistinctNamesCount(metrics: seq<ComparisonMetric>)
    requires DistinctNames(metrics)
    ensures |NamesOf(metrics)| == |metrics|
  {
    if metrics != [] {
      var n := |metrics| - 1;
      assert metrics[..n + 1] == metrics && DistinctNames(metrics[..n]);
      DistinctNamesCount(metrics[..n]);
      NameStep(metrics, n);
    }
  }

  method ValidateComparisonMetric(state: CaseState, m: ComparisonMetric, policy: string, seen: set<MetricName>) returns (ok: bool)
    ensures ok <==> ValidComparisonMetric(state, m, policy) && m.name !in seen
  {
    if m.name !in TerminalMetricNames || m.scorerVersion != policy || m.name in seen {
      return false;
    }
    if TerminalFailure(state) && m.state == Scored {
      return false;
    }
    if m.state == Scored && !ScoredComparisonMetric(m) {
      return false;
    }
    if m.state != Scored && !ValidUnscored(m) {
      return false;
    }
    ok := true;
  }

  method ValidateComparisonMetrics(c: ComparisonCase, policy: string) returns (ok: bool)
    ensures ok <==> ValidComparisonMetrics(c, policy)
  {
    if |c.metrics| != 10 {
      return false;
    }
    var seen: set<MetricName> := {};
    for index := 0 to |c.metrics|
      invariant forall i | 0 <= i < index :: ValidComparisonMetric(c.state, c.metrics[i], policy)
      invariant DistinctNames(c.metrics[..index]) && seen == NamesOf(c.metrics[..index])
    {
      NameStep(c.metrics, index);
      var valid := ValidateComparisonMetric(c.state, c.metrics[index], policy, seen);
      if !valid {
        return false;
      }
      seen := seen + {c.metrics[index].name};
    }
    assert c.metrics[..|c.metrics|] == c.metrics;
    DistinctNamesCount(c.metrics);
    ok := |seen| == 10;
  }

  method ValidateComparisonCases(cases: seq<ComparisonCase>, policy: string) returns (ok: bool)
    ensures ok <==> ValidComparisonCases(cases, policy)
  {
    if |cases| == 0 {
      return false;
    }
    var seen: set<Uuid> := {};
    for index := 0 to |cases|
      invariant forall i | 0 <= i < index :: ValidComparisonCase(cases[i], policy)
      invariant forall i, j | 0 <= i < j < index :: cases[i].datasetCaseID != cases[j].datasetCaseID
      invariant seen == set i | 0 <= i < index :: cases[i].datasetCaseID
    {
      var c := cases[index];
      if c.datasetCaseID == NIL || !TerminalCase(c.state) || c.datasetCaseID in seen {
        return false;
      }
      seen := seen + {c.datasetCaseID};
      var metricsOk := ValidateComparisonMetrics(c, policy);
      if !metricsOk {
        return false;
      }
    }
    ok := true;
  }

  method ValidateComparisonRun(run: ComparisonRun, wantID: Uuid) returns (ok: bool)
    ensures ok <==> ValidComparisonRun(run, wantID)
  {
    if !ValidComparisonHeader(run, wantID) {
      return false;
    }
    ok := ValidateComparisonCases(run.cases, run.key.scoringPolicyVersion);
  }

  // ---------------------------------------------------------------- Pairing

  /** indexComparisonCases: cases by dataset case, the nil identifier left out. */
  function Index(cases: seq<ComparisonCase>): map<Uuid, ComparisonCase> {
    if cases == [] then map[]
    else
      var last := cases[|cases| - 1];
      var earlier := Index(cases[..|cases| - 1]);
      if last.datasetCaseID != NIL then earlier[last.datasetCaseID := last] else earlier
  }

  function ByName(metrics: seq<ComparisonMetric>): map<MetricName, ComparisonMetric> {
    if metrics == [] then map[]
    else ByName(metrics[..|metrics| - 1])[metrics[|metrics| - 1].name := metrics[|metrics| - 1]]
  }

  lemma {:induction false} ByNameLookup(metrics: seq<ComparisonMetric>)
    requires DistinctNames(metrics)
    ensures forall name :: name in ByName(metrics) <==> exists i :: 0 <= i < |metrics| && metrics[i].name == name
    ensures forall i | 0 <= i < |metrics| :: metrics[i].name in ByName(metrics) && ByName(metrics)[metrics[i].name] == metrics[i]
  {
    if metrics != [] {
      var earlier := metrics[..|metrics| - 1];
      ByNameLookup(earlier);
      forall name ensures name in ByName(metrics) <==> exists i :: 0 <= i < |metrics| && metrics[i].name == name {
        if name in ByName(earlier) {
          var i :| 0 <= i < |earlier| && earlier[i].name == name;
          assert metrics[i].name == name;
        }
      }
    }
  }

  /** Both cases carry a scored metric of this name. */
  predicate JointlyScored(left: ComparisonCase, right: ComparisonCase, name: MetricName) {
    var l, r := ByName(left.metrics), ByName(right.metrics);
    name in l && name in r && ScoredComparisonMetric(l[name]) && ScoredComparisonMetric(r[name])
  }

  ghost function Jointly(left: map<Uuid, ComparisonCase>, right: map<Uuid, ComparisonCase>, cases: set<Uuid>, name: MetricName): set<Uuid>
    requires cases <= left.Keys && cases <= right.Keys
  {
    set c | c in cases && JointlyScored(left[c], right[c], name)
  }

  /** What one side of a pair adds to the numerator sum. */
  function JointNumerator(side: ComparisonCase, other: ComparisonCase, name: MetricName): int {
    if JointlyScored(side, other, name) then ByName(side.metrics)[name].numerator.value else 0
  }

  function JointDenominator(side: ComparisonCase, other: ComparisonCase, name: MetricName): int {
    if JointlyScored(side, other, name) then ByName(side.metrics)[name].denominator.value else 0
  }

  ghost function NumeratorsOf(side: map<Uuid, ComparisonCase>, other: map<Uuid, ComparisonCase>, cases: set<Uuid>, name: MetricName): map<Uuid, int>
    requires cases <= side.Keys && cases <= other.Keys
  {
    map c | c in cases :: JointNumerator(side[c], other[c], name)
  }

  ghost function DenominatorsOf(side: map<Uuid, ComparisonCase>, other: map<Uuid, ComparisonCase>, cases: set<Uuid>, name: MetricName): map<Uuid, int>
    requires cases <= side.Keys && cases <= other.Keys
  {
    map c | c in cases :: JointDenominator(side[c], other[c], name)
  }

  /** The paired cases that take part in metric deltas. */
  ghost function Eligible(left: map<Uuid, ComparisonCase>, right: map<Uuid, ComparisonCase>): set<Uuid> {
    set c | c in left.Keys && c in right.Keys && !TerminalFailure(left[c].state) && !TerminalFailure(right[c].state)
  }

  /** The summed delta of one component over some paired cases, before its quotients are taken. */
  ghost function SummedOver(left: map<Uuid, ComparisonCase>, right: map<Uuid, ComparisonCase>, cases: set<Uuid>, name: MetricName): MetricDelta
    requires cases <= left.Keys && cases <= right.Keys
  {
    var jointly := Jointly(left, right, cases, name);
    MetricDelta(name, if jointly == {} then NotScored else Scored, |jointly|,
                Sum(NumeratorsOf(left, right, cases, name)), Sum(DenominatorsOf(left, right, cases, name)),
                Sum(NumeratorsOf(right, left, cases, name)), Sum(DenominatorsOf(right, left, cases, name)),
                None, None, None)
  }

  /** One more paired case added to a running delta. */
  function Accumulated(delta: MetricDelta, left: ComparisonCase, right: ComparisonCase, name: MetricName): MetricDelta {
    if !JointlyScored(left, right, name) then delta
    else delta.(
      state := Scored, pairedCases := delta.pairedCases + 1,
      leftNumerator := delta.leftNumerator + JointNumerator(left, right, name),
      leftDenominator := delta.leftDenominator + JointDenominator(left, right, name),
      rightNumerator := delta.rightNumerator + JointNumerator(right, left, name),
      rightDenominator := delta.rightDenominator + JointDenominator(right, left, name))
  }

  lemma SideOneMore(side: map<Uuid, ComparisonCase>, other: map<Uuid, ComparisonCase>, cases: set<Uuid>, c: Uuid, name: MetricName)
    requires cases <= side.Keys && cases <= other.Keys && c in side && c in other && c !in cases
    ensures Sum(NumeratorsOf(side, other, cases + {c}, name))
         == Sum(NumeratorsOf(side, other, cases, name)) + JointNumerator(side[c], other[c], name)
    ensures Sum(DenominatorsOf(side, other, cases + {c}, name))
         == Sum(DenominatorsOf(side, other, cases, name)) + JointDenominator(side[c], other[c], name)
  {
    var n, d := NumeratorsOf(side, other, cases, name), DenominatorsOf(side, other, cases, name);
    var nc, dc := JointNumerator(side[c], other[c], name), JointDenominator(side[c], other[c], name);
    assert NumeratorsOf(side, other, cases + {c}, name) == n[c := nc];
    assert DenominatorsOf(side, other, cases + {c}, name) == d[c := dc];
    SumInsert(n, c, nc);
    SumInsert(d, c, dc);
  }

  lemma JointlyOneMore(left: map<Uuid, ComparisonCase>, right: map<Uuid, ComparisonCase>, cases: set<Uuid>, c: Uuid, name: MetricName)
    requires cases <= left.Keys && cases <= right.Keys && c in left && c in right && c !in cases
    ensures Jointly(left, right, cases + {c}, name)
         == Jointly(left, right, cases, name) + (if JointlyScored(left[c], right[c], name) then {c} else {})
  {
  }

  lemma JointlyScoredSymmetric(left: ComparisonCase, right: ComparisonCase, name: MetricName)
    ensures JointlyScored(left, right, name) <==> JointlyScored(right, left, name)
  {
  }

  lemma SummedOneMore(left: map<Uuid, ComparisonCase>, right: map<Uuid, ComparisonCase>, cases: set<Uuid>, c: Uuid, name: MetricName)
    requires cases <= left.Keys && cases <= right.Keys && c in left && c in right && c !in cases
    ensures SummedOver(left, right, cases + {c}, name) == Accumulated(SummedOver(left, right, cases, name), left[c], right[c], name)
  {
    JointlyOneMore(left, right, cases, c, name);
    JointlyScoredSymmetric(left[c], right[c], name);
    SideOneMore(left, right, cases, c, name);
    SideOneMore(right, left, cases, c, name);
    SummedStep(SummedOver(left, right, cases, name), SummedOver(left, right, cases + {c}, name), left[c], right[c], name);
  }

  lemma SummedStep(before: MetricDelta, after: MetricDelta, left: ComparisonCase, right: ComparisonCase, name: MetricName)
    requires before.name == after.name
    requires JointlyScored(right, left, name) <==> JointlyScored(left, right, name)
    requires after.leftNumerator == before.leftNumerator + JointNumerator(left, right, name)
    requires after.leftDenominator == before.leftDenominator + JointDenominator(left, right, name)
    requires after.rightNumerator == before.rightNumerator + JointNumerator(right, left, name)
    requires after.rightDenominator == before.rightDenominator + JointDenominator(right, left, name)
    requires if JointlyScored(left, right, name) then after.pairedCases == before.pairedCases + 1 && after.state == Scored
             else after.pairedCases == before.pairedCases && after.state == before.state
    requires before.leftValue.None? && before.rightValue.None? && before.delta.None?
    requires after.leftValue.None? && after.rightValue.None? && after.delta.None?
    ensures after == Accumulated(before, left, right, name)
  {
  }

  // ---------------------------------------------------------------- Totals and deltas

  function InCaseState(cases: map<Uuid, ComparisonCase>, state: CaseState): set<Uuid> {
    set c | c in cases && cases[c].state == state
  }

  ghost function StateCount(cases: map<Uuid, ComparisonCase>, state: CaseState): nat {
    |InCaseState(cases, state)|
  }

  ghost function TotalsOf(left: map<Uuid, ComparisonCase>, right: map<Uuid, ComparisonCase>): ComparisonTotals {
    ComparisonTotals(
      |left|, |right|, |left.Keys * right.Keys|, |left.Keys - right.Keys|, |right.Keys - left.Keys|,
      |left.Keys * right.Keys - Eligible(left, right)|,
      StateCount(left, Failed), StateCount(left, Cancelled), StateCount(right, Failed), StateCount(right, Cancelled))
  }

  /** The quotients of a scored delta. */
  function WithValues(d: MetricDelta): MetricDelta
    requires d.state == Scored ==> d.leftDenominator != 0 && d.rightDenominator != 0
  {
    if d.state != Scored then d
    else
      var l := d.leftNumerator as real / d.leftDenominator as real;
      var r := d.rightNumerator as real / d.rightDenominator as real;
      d.(leftValue := Some(l), rightValue := Some(r), delta := Some(r - l))
  }

  /** A scored delta carries the quotients of its own sums and their difference, right minus left; any other carries none. */
  predicate QuotientsStand(d: MetricDelta) {
    && (d.state != Scored ==> d.leftValue.None? && d.rightValue.None? && d.delta.None?)
    && (d.state == Scored ==>
          && d.leftDenominator != 0 && d.rightDenominator != 0
          && d.leftValue == Some(d.leftNumerator as real / d.leftDenominator as real)
          && d.rightValue == Some(d.rightNumerator as real / d.rightDenominator as real)
          && d.delta == Some(d.rightValue.value - d.leftValue.value))
  }

  lemma SideIsPositive(side: map<Uuid, ComparisonCase>, other: map<Uuid, ComparisonCase>, cases: set<Uuid>, name: MetricName)
    requires cases <= side.Keys && cases <= other.Keys
    ensures 0 <= Sum(NumeratorsOf(side, other, cases, name))
    ensures |Jointly(side, other, cases, name)| <= Sum(DenominatorsOf(side, other, cases, name))
  {
    var ones := map c | c in Jointly(side, other, cases, name) :: 1;
    assert forall c | c in cases :: 0 <= JointNumerator(side[c], other[c], name) && 0 <= JointDenominator(side[c], other[c], name);
    SumMonotone(map[], NumeratorsOf(side, other, cases, name));
    SumOfOnes(ones);
    assert ones.Keys == Jointly(side, other, cases, name) && |ones| == |ones.Keys|;
    SumMonotone(ones, DenominatorsOf(side, other, cases, name));
  }

  lemma JointlySymmetric(left: map<Uuid, ComparisonCase>, right: map<Uuid, ComparisonCase>, cases: set<Uuid>, name: MetricName)
    requires cases <= left.Keys && cases <= right.Keys
    ensures Jointly(left, right, cases, name) == Jointly(right, left, cases, name)
  {
  }

  /** A scored delta divides by positive sums. */
  lemma ScoredDeltasDivide(left: map<Uuid, ComparisonCase>, right: map<Uuid, ComparisonCase>, cases: set<Uuid>, name: MetricName)
    requires cases <= left.Keys && cases <= right.Keys
    ensures var d := SummedOver(left, right, cases, name);
            && 0 <= d.leftNumerator && 0 <= d.rightNumerator
            && d.pairedCases <= d.leftDenominator && d.pairedCases <= d.rightDenominator
            && (d.state == Scored <==> d.pairedCases > 0)
  {
    SideIsPositive(left, right, cases, name);
    SideIsPositive(right, left, cases, name);
    JointlySymmetric(left, right, cases, name);
  }

  ghost function DeltaOf(left: map<Uuid, ComparisonCase>, right: map<Uuid, ComparisonCase>, name: MetricName): MetricDelta {
    ScoredDeltasDivide(left, right, Eligible(left, right), name);
    WithValues(SummedOver(left, right, Eligible(left, right), name))
  }

  /** The stored text of a component name. */
  function NameText(name: MetricName): string {
    match name
    case RetrievalCoverage => "retrieval_coverage"
    case CitationCoverage => "citation_coverage"
    case CitationValidity => "citation_validity"
    case CitationScope => "citation_scope_validity"
    case ExpectedAbstention => "expected_abstention_outcome"
    case ExecutionState => "execution_outcome"
    case Latency => "latency_milliseconds"
    case InputTokens => "input_tokens"
    case OutputTokens => "output_tokens"
    case SemanticSupport => "semantic_claim_support"
    case OtherMetric(text) => text
  }

  function NameTexts(names: set<MetricName>): map<MetricName, string> {
    map name | name in names :: NameText(name)
  }

  /** The ten components in the order of their texts. */
  const ALPHABETICAL: seq<MetricName> :=
    [CitationCoverage, CitationScope, CitationValidity, ExecutionState, ExpectedAbstention,
     InputTokens, Latency, OutputTokens, RetrievalCoverage, SemanticSupport]

  ghost function DeltasOf(left: map<Uuid, ComparisonCase>, right: map<Uuid, ComparisonCase>): seq<MetricDelta> {
    seq(10, i requires 0 <= i < 10 => DeltaOf(left, right, ALPHABETICAL[i]))
  }

  // ---------------------------------------------------------------- Sorting by name

  /** The order lists the names of the texts, each text before the next. */
  ghost predicate ListsInOrder(order: seq<MetricName>, texts: map<MetricName, string>) {
    && (forall name :: name in texts <==> name in order)
    && forall i, j | 0 <= i < j < |order| :: order[i] in texts && order[j] in texts && Less(texts[order[i]], texts[order[j]])
  }

  ghost predicate Adjacent(texts: seq<string>, k: nat)
    requires k + 1 < |texts|
  {
    Less(texts[k], texts[k + 1])
  }

  lemma {:induction false} AdjacentSuffice(texts: seq<string>, i: nat, j: nat)
    requires i < j < |texts| && forall k: nat | k + 1 < |texts| :: Adjacent(texts, k)
    ensures Less(texts[i], texts[j])
    decreases j - i
  {
    assert Adjacent(texts, j - 1);
    if i + 1 < j {
      AdjacentSuffice(texts, i, j - 1);
      LessTransitive(texts[i], texts[j - 1], texts[j]);
    }
  }

  const TEXTS: seq<string> :=
    [NameText(CitationCoverage), NameText(CitationScope), NameText(CitationValidity), NameText(ExecutionState),
     NameText(ExpectedAbstention), NameText(InputTokens), NameText(Latency), NameText(OutputTokens),
     NameText(RetrievalCoverage), NameText(SemanticSupport)]

  lemma CitationTextsAscend(k: nat)
    requires k < 2
    ensures Adjacent(TEXTS, k)
  {
    assert "citation_" + "coverage" == "citation_coverage" && "citation_" + "validity" == "citation_validity";
    assert "citation_" + "scope_validity" == "citation_scope_validity";
    LessConcat("citation_", "citation_", "coverage", "scope_validity");
    LessConcat("citation_", "citation_", "scope_validity", "validity");
  }

  lemma ThirdCharacterDecides(a: string, b: string)
    requires |a| >= 3 && |b| >= 3 && a[0] == b[0] && a[1] == b[1] && a[2] < b[2]
    ensures Less(a, b)
  {
    assert Less(a[1..][1..], b[1..][1..]) && Less(a[1..], b[1..]);
  }

  lemma ExecutionBeforeExpectation()
    ensures Adjacent(TEXTS, 3)
  {
    ThirdCharacterDecides("execution_outcome", "expected_abstention_outcome");
  }

  lemma LaterTextsAscend(k: nat)
    requires 2 <= k < 9 && k != 3
    ensures Adjacent(TEXTS, k)
  {
  }

  lemma TextsAscend(k: nat)
    requires k < 9
    ensures Adjacent(TEXTS, k)
  {
    if k < 2 {
      CitationTextsAscend(k);
    } else if k == 3 {
      ExecutionBeforeExpectation();
    } else {
      LaterTextsAscend(k);
    }
  }

  lemma TextAt(i: nat)
    requires i < 10
    ensures ALPHABETICAL[i] in TerminalMetricNames && TEXTS[i] == NameText(ALPHABETICAL[i])
  {
  }

  lemma EveryNameIsListed(name: MetricName)
    ensures name in TerminalMetricNames <==> name in ALPHABETICAL
  {
    assert ALPHABETICAL[0] == CitationCoverage && ALPHABETICAL[1] == CitationScope && ALPHABETICAL[2] == CitationValidity;
    assert ALPHABETICAL[3] == ExecutionState && ALPHABETICAL[4] == ExpectedAbstention && ALPHABETICAL[5] == InputTokens;
    assert ALPHABETICAL[6] == Latency && ALPHABETICAL[7] == OutputTokens && ALPHABETICAL[8] == RetrievalCoverage;
    assert ALPHABETICAL[9] == SemanticSupport;
  }

  /** The listing of the ten components is in the strict order of their stored texts. */
  lemma AlphabeticalIsTextOrder(texts: map<MetricName, string>)
    requires texts.Keys == TerminalMetricNames && forall name | name in texts :: texts[name] == NameText(name)
    ensures ListsInOrder(ALPHABETICAL, texts)
  {
    forall name ensures name in texts <==> name in ALPHABETICAL { EveryNameIsListed(name); }
    forall k: nat | k + 1 < |TEXTS| ensures Adjacent(TEXTS, k) { TextsAscend(k); }
    forall i, j | 0 <= i < j < 10
      ensures ALPHABETICAL[i] in texts && ALPHABETICAL[j] in texts && Less(texts[ALPHABETICAL[i]], texts[ALPHABETICAL[j]])
    {
      AdjacentSuffice(TEXTS, i, j);
      TextAt(i);
      TextAt(j);
    }
  }

  lemma LessAsymmetric(a: string, b: string)
    requires Less(a, b)
    ensures !Less(b, a)
  {
    if Less(b, a) {
      LessTransitive(a, b, a);
      LessIrreflexive(a);
    }
  }

  /** The names listed from position k on. */
  ghost function ListedFrom(order: seq<MetricName>, k: nat): set<MetricName> {
    set i | k <= i < |order| :: order[i]
  }

  lemma ListedStep(order: seq<MetricName>, texts: map<MetricName, string>, k: nat)
    requires ListsInOrder(order, texts) && k < |order|
    ensures order[k] in ListedFrom(order, k) && ListedFrom(order, k + 1) == ListedFrom(order, k) - {order[k]}
    ensures forall name | name in ListedFrom(order, k) && name != order[k] :: name in texts && Less(texts[order[k]], texts[name])
    ensures order[k] in texts
  {
    LessIrreflexive(texts[order[k]]);
  }

  lemma ListedIsNotEmpty(order: seq<MetricName>, k: nat)
    ensures k < |order| ==> ListedFrom(order, k) != {}
  {
    if k < |order| {
      assert order[k] in ListedFrom(order, k);
    }
  }

  /** The first of some names in text order. */
  method FirstName(names: set<MetricName>, texts: map<MetricName, string>, ghost least: MetricName) returns (first: MetricName)
    requires least in names && names <= texts.Keys
    requires forall name | name in names && name != least :: Less(texts[least], texts[name])
    ensures first == least
  {
    first :| first in names;
    var pending := names - {first};
    while pending != {}
      invariant pending <= names && first in names
      invariant least == first || least in pending
      decreases pending
    {
      var name :| name in pending;
      pending := pending - {name};
      if Less(texts[name], texts[first]) {
        LessAsymmetric(texts[name], texts[first]);
        first := name;
      }
    }
  }

  /** sortedMetricDeltas: quotients added, in the order of the names. */
  method SortedMetricDeltas(totals: map<MetricName, MetricDelta>, texts: map<MetricName, string>, ghost order: seq<MetricName>)
    returns (metrics: seq<MetricDelta>)
    requires ListsInOrder(order, texts) && totals.Keys == texts.Keys
    requires forall name | name in totals ::
               totals[name].state != Scored ==> totals[name].leftValue.None? && totals[name].rightValue.None? && totals[name].delta.None?
    requires forall name | name in totals :: totals[name].state == Scored ==> totals[name].leftDenominator != 0 && totals[name].rightDenominator != 0
    ensures |metrics| == |order|
    ensures forall i {:trigger metrics[i]} | 0 <= i < |order| :: order[i] in totals && metrics[i] == WithValues(totals[order[i]])
    ensures forall i {:trigger metrics[i]} | 0 <= i < |order| :: QuotientsStand(metrics[i])
  {
    metrics := [];
    var pending := totals.Keys;
    ghost var k: nat := 0;
    assert pending == ListedFrom(order, 0);
    while pending != {}
      invariant k <= |order| && |metrics| == k && pending <= totals.Keys
      invariant pending == ListedFrom(order, k)
      invariant forall i {:trigger metrics[i]} | 0 <= i < k :: order[i] in totals && metrics[i] == WithValues(totals[order[i]])
      decreases pending
    {
      assert k < |order|;
      ListedStep(order, texts, k);
      var name := FirstName(pending, texts, order[k]);
      metrics := metrics + [WithValues(totals[name])];
      pending := pending - {name};
      k := k + 1;
    }
    ListedIsNotEmpty(order, k);
    forall i | 0 <= i < |order| ensures QuotientsStand(metrics[i]) { ValuesStand(totals[order[i]]); }
  }

  lemma ValuesStand(d: MetricDelta)
    requires d.state == Scored ==> d.leftDenominator != 0 && d.rightDenominator != 0
    requires d.state != Scored ==> d.leftValue.None? && d.rightValue.None? && d.delta.None?
    ensures QuotientsStand(WithValues(d))
  {
  }

  // ---------------------------------------------------------------- Comparing cases

  method IndexComparisonCases(cases: seq<ComparisonCase>) returns (indexed: map<Uuid, ComparisonCase>)
    ensures indexed == Index(cases)
  {
    indexed := map[];
    for index := 0 to |cases|
      invariant indexed == Index(cases[..index])
    {
      assert cases[..index + 1][..index] == cases[..index];
      if cases[index].datasetCaseID != NIL {
        indexed := indexed[cases[index].datasetCaseID := cases[index]];
      }
    }
    assert cases[..|cases|] == cases;
  }

  /** Metric names are distinct and known: what validation has established of a case. */
  ghost predicate NamedOnce(c: ComparisonCase) {
    DistinctNames(c.metrics) && forall i | 0 <= i < |c.metrics| :: c.metrics[i].name in TerminalMetricNames
  }

  lemma NamesOfOneMore(metrics: seq<ComparisonMetric>, n: nat)
    requires n < |metrics| && DistinctNames(metrics)
    ensures NamesOf(metrics[..n + 1]) == NamesOf(metrics[..n]) + {metrics[n].name}
    ensures metrics[n].name !in NamesOf(metrics[..n])
  {
    assert DistinctNames(metrics[..n + 1]);
    NameStep(metrics, n);
  }

  lemma AccumulatedUnnamed(delta: MetricDelta, left: ComparisonCase, right: ComparisonCase, name: MetricName)
    requires DistinctNames(left.metrics) && name !in NamesOf(left.metrics)
    ensures Accumulated(delta, left, right, name) == delta
  {
    ByNameLookup(left.metrics);
  }

  /** Adds one pair to the running deltas. */
  method CompareCaseMetrics(left: ComparisonCase, right: ComparisonCase, totals: map<MetricName, MetricDelta>)
    returns (updated: map<MetricName, MetricDelta>)
    requires NamedOnce(left) && totals.Keys == TerminalMetricNames
    ensures updated.Keys == totals.Keys
    ensures forall name {:trigger updated[name]} | name in updated :: updated[name] == Accumulated(totals[name], left, right, name)
  {
    var rightByName := ByName(right.metrics);
    updated := totals;
    for index := 0 to |left.metrics|
      invariant updated.Keys == totals.Keys
      invariant forall name {:trigger updated[name]} | name in updated ::
                  updated[name] == if name in NamesOf(left.metrics[..index]) then Accumulated(totals[name], left, right, name) else totals[name]
    {
      NamesOfOneMore(left.metrics, index);
      var l := left.metrics[index];
      MetricLookup(left.metrics, index);
      assert l.name in updated && updated[l.name] == totals[l.name];
      if l.name in rightByName && ScoredComparisonMetric(l) && ScoredComparisonMetric(rightByName[l.name]) {
        updated := updated[l.name := Increased(updated[l.name], l, rightByName[l.name])];
      }
    }
    assert left.metrics[..|left.metrics|] == left.metrics;
    forall name | name in updated ensures updated[name] == Accumulated(totals[name], left, right, name) {
      if name !in NamesOf(left.metrics) {
        AccumulatedUnnamed(totals[name], left, right, name);
      }
    }
  }

  lemma MetricLookup(metrics: seq<ComparisonMetric>, n: nat)
    requires n < |metrics| && DistinctNames(metrics)
    ensures metrics[n].name in ByName(metrics) && ByName(metrics)[metrics[n].name] == metrics[n]
  {
    ByNameLookup(metrics);
  }

  function Increased(delta: MetricDelta, l: ComparisonMetric, r: ComparisonMetric): MetricDelta
    requires ScoredComparisonMetric(l) && ScoredComparisonMetric(r)
  {
    delta.(
      pairedCases := delta.pairedCases + 1, state := Scored,
      leftNumerator := delta.leftNumerator + l.numerator.value, leftDenominator := delta.leftDenominator + l.denominator.value,
      rightNumerator := delta.rightNumerator + r.numerator.value, rightDenominator := delta.rightDenominator + r.denominator.value)
  }

  function NewMetricDeltas(): map<MetricName, MetricDelta> {
    map name | name in TerminalMetricNames :: MetricDelta(name, NotScored, 0, 0, 0, 0, 0, None, None, None)
  }

  /** The running deltas cover exactly some of the eligible pairs. */
  ghost predicate SummedAll(left: map<Uuid, ComparisonCase>, right: map<Uuid, ComparisonCase>, cases: set<Uuid>, totals: map<MetricName, MetricDelta>) {
    && cases <= left.Keys && cases <= right.Keys && totals.Keys == TerminalMetricNames
    && forall name {:trigger totals[name]} | name in totals :: totals[name] == SummedOver(left, right, cases, name)
  }

  lemma NothingSummed(left: map<Uuid, ComparisonCase>, right: map<Uuid, ComparisonCase>)
    ensures SummedAll(left, right, {}, NewMetricDeltas())
  {
  }

  lemma SummedAllOneMore(
    left: map<Uuid, ComparisonCase>, right: map<Uuid, ComparisonCase>, cases: set<Uuid>, c: Uuid,
    totals: map<MetricName, MetricDelta>, updated: map<MetricName, MetricDelta>)
    requires SummedAll(left, right, cases, totals) && c in left && c in right && c !in cases
    requires updated.Keys == totals.Keys
    requires forall name {:trigger updated[name]} | name in updated :: updated[name] == Accumulated(totals[name], left[c], right[c], name)
    ensures SummedAll(left, right, cases + {c}, updated)
  {
    forall name | name in updated ensures updated[name] == SummedOver(left, right, cases + {c}, name) {
      SummedOneMore(left, right, cases, c, name);
      assert totals[name] == SummedOver(left, right, cases, name);
    }
  }

  /** Counting the members of a set while the pending keys shrink. */
  lemma TakeOne(all: set<Uuid>, pending: set<Uuid>, c: Uuid)
    requires c in pending
    ensures c in all ==> all - (pending - {c}) == (all - pending) + {c} && |all - (pending - {c})| == |all - pending| + 1
    ensures c !in all ==> all - (pending - {c}) == all - pending
  {
    if c in all {
      assert all - (pending - {c}) == (all - pending) + {c};
    }
  }

  method CountState(cases: map<Uuid, ComparisonCase>, state: CaseState) returns (count: nat)
    ensures count == StateCount(cases, state)
  {
    count := 0;
    var pending := cases.Keys;
    assert InCaseState(cases, state) - pending == {};
    while pending != {}
      invariant pending <= cases.Keys && count == |InCaseState(cases, state) - pending|
      decreases pending
    {
      var c :| c in pending;
      TakeOne(InCaseState(cases, state), pending, c);
      pending := pending - {c};
      if cases[c].state == state {
        count := count + 1;
      }
    }
    assert InCaseState(cases, state) - pending == InCaseState(cases, state);
  }

  /** How many keys of one side have no partner. */
  method CountUnpaired(side: set<Uuid>, other: set<Uuid>) returns (count: nat)
    ensures count == |side - other|
  {
    count := 0;
    var pending := side;
    assert side - other - pending == {};
    while pending != {}
      invariant pending <= side && count == |side - other - pending|
      decreases pending
    {
      var c :| c in pending;
      TakeOne(side - other, pending, c);
      pending := pending - {c};
      if c !in other {
        count := count + 1;
      }
    }
    assert side - other - pending == side - other;
  }

  /** The three counters after the keys that are no longer pending, and the pairs summed so far. */
  ghost predicate Passed(
    keys: set<Uuid>, pairs: set<Uuid>, eligible: set<Uuid>, pending: set<Uuid>, paired: nat, unpaired: nat, failed: nat, summed: set<Uuid>)
  {
    && eligible <= pairs <= keys && pending <= keys
    && paired == |pairs - pending| && unpaired == |keys - pairs - pending| && failed == |pairs - eligible - pending|
    && summed == eligible - pending
  }

  lemma PassOne(
    keys: set<Uuid>, pairs: set<Uuid>, eligible: set<Uuid>, pending: set<Uuid>, paired: nat, unpaired: nat, failed: nat, summed: set<Uuid>,
    c: Uuid)
    requires Passed(keys, pairs, eligible, pending, paired, unpaired, failed, summed) && c in pending
    ensures c !in summed
    ensures c !in pairs ==> Passed(keys, pairs, eligible, pending - {c}, paired, unpaired + 1, failed, summed)
    ensures c in pairs && c !in eligible ==> Passed(keys, pairs, eligible, pending - {c}, paired + 1, unpaired, failed + 1, summed)
    ensures c in eligible ==> Passed(keys, pairs, eligible, pending - {c}, paired + 1, unpaired, failed, summed + {c})
  {
    TakeOne(pairs, pending, c);
    TakeOne(keys - pairs, pending, c);
    TakeOne(pairs - eligible, pending, c);
    TakeOne(eligible, pending, c);
  }

  lemma NothingPassed(keys: set<Uuid>, pairs: set<Uuid>, eligible: set<Uuid>)
    requires eligible <= pairs <= keys
    ensures Passed(keys, pairs, eligible, keys, 0, 0, 0, {})
  {
    assert pairs - keys == {} && keys - pairs - keys == {} && pairs - eligible - keys == {} && eligible - keys == {};
  }

  lemma AllPassed(
    keys: set<Uuid>, pairs: set<Uuid>, eligible: set<Uuid>, paired: nat, unpaired: nat, failed: nat, summed: set<Uuid>)
    requires Passed(keys, pairs, eligible, {}, paired, unpaired, failed, summed)
    ensures paired == |pairs| && unpaired == |keys - pairs| && failed == |pairs - eligible| && summed == eligible
  {
    assert pairs - {} == pairs && keys - pairs - {} == keys - pairs && pairs - eligible - {} == pairs - eligible && eligible - {} == eligible;
  }

  /** compareCases: one pass over the left cases in any order pairs them and sums the jointly scored metrics. */
  method PairCases(left: map<Uuid, ComparisonCase>, right: map<Uuid, ComparisonCase>, ghost pairs: set<Uuid>, ghost eligible: set<Uuid>)
    returns (paired: nat, unpaired: nat, failed: nat, totals: map<MetricName, MetricDelta>)
    requires forall c | c in left :: NamedOnce(left[c])
    requires pairs == left.Keys * right.Keys && eligible == Eligible(left, right)
    ensures paired == |pairs| && unpaired == |left.Keys - pairs| && failed == |pairs - eligible|
    ensures SummedAll(left, right, eligible, totals)
  {
    paired, unpaired, failed, totals := 0, 0, 0, NewMetricDeltas();
    NothingSummed(left, right);
    NothingPassed(left.Keys, pairs, eligible);
    var pending := left.Keys;
    ghost var summed: set<Uuid> := {};
    while pending != {}
      invariant Passed(left.Keys, pairs, eligible, pending, paired, unpaired, failed, summed)
      invariant SummedAll(left, right, summed, totals)
      decreases pending
    {
      var c :| c in pending;
      PassOne(left.Keys, pairs, eligible, pending, paired, unpaired, failed, summed, c);
      assert c in left && (c in pairs <==> c in right);
      assert c in eligible <==> c in right && !TerminalFailure(left[c].state) && !TerminalFailure(right[c].state);
      pending := pending - {c};
      if c !in right {
        unpaired := unpaired + 1;
      } else {
        paired := paired + 1;
        if TerminalFailure(left[c].state) || TerminalFailure(right[c].state) {
          failed := failed + 1;
        } else {
          var updated := CompareCaseMetrics(left[c], right[c], totals);
          SummedAllOneMore(left, right, summed, c, totals, updated);
          totals, summed := updated, summed + {c};
        }
      }
    }
    AllPassed(left.Keys, pairs, eligible, paired, unpaired, failed, summed);
  }

  lemma UnpairedKeys(left: map<Uuid, ComparisonCase>, right: map<Uuid, ComparisonCase>)
    ensures left.Keys - left.Keys * right.Keys == left.Keys - right.Keys
  {
  }

  method CompareCases(left: seq<ComparisonCase>, right: seq<ComparisonCase>) returns (totals: ComparisonTotals, metrics: seq<MetricDelta>)
    requires forall c | c in Index(left) :: NamedOnce(Index(left)[c])
    ensures totals == TotalsOf(Index(left), Index(right))
    ensures metrics == DeltasOf(Index(left), Index(right)) && forall i {:trigger metrics[i]} | 0 <= i < 10 :: QuotientsStand(metrics[i])
  {
    var l := IndexComparisonCases(left);
    var r := IndexComparisonCases(right);
    var paired, leftUnpaired, failed, sums := PairCases(l, r, l.Keys * r.Keys, Eligible(l, r));
    UnpairedKeys(l, r);
    var rightUnpaired := CountUnpaired(r.Keys, l.Keys);
    var leftFailed := CountState(l, Failed);
    var leftCancelled := CountState(l, Cancelled);
    var rightFailed := CountState(r, Failed);
    var rightCancelled := CountState(r, Cancelled);
    totals := ComparisonTotals(
      |l|, |r|, paired, leftUnpaired, rightUnpaired, failed, leftFailed, leftCancelled, rightFailed, rightCancelled);
    metrics := QuotientsOf(l, r, sums);
  }

  lemma SummedAllDivide(left: map<Uuid, ComparisonCase>, right: map<Uuid, ComparisonCase>, cases: set<Uuid>, totals: map<MetricName, MetricDelta>)
    requires SummedAll(left, right, cases, totals)
    ensures forall name | name in totals :: totals[name].state == Scored ==> totals[name].leftDenominator != 0 && totals[name].rightDenominator != 0
  {
    forall name | name in totals
      ensures totals[name].state == Scored ==> totals[name].leftDenominator != 0 && totals[name].rightDenominator != 0
    {
      ScoredDeltasDivide(left, right, cases, name);
      assert totals[name] == SummedOver(left, right, cases, name);
    }
  }

  lemma DeltasListed(left: map<Uuid, ComparisonCase>, right: map<Uuid, ComparisonCase>, totals: map<MetricName, MetricDelta>, metrics: seq<MetricDelta>)
    requires SummedAll(left, right, Eligible(left, right), totals) && |metrics| == 10
    requires forall i {:trigger metrics[i]} | 0 <= i < 10 ::
               && ALPHABETICAL[i] in totals
               && (totals[ALPHABETICAL[i]].state == Scored ==>
                     totals[ALPHABETICAL[i]].leftDenominator != 0 && totals[ALPHABETICAL[i]].rightDenominator != 0)
               && metrics[i] == WithValues(totals[ALPHABETICAL[i]])
    ensures metrics == DeltasOf(left, right)
  {
    forall i | 0 <= i < 10 ensures metrics[i] == DeltaOf(left, right, ALPHABETICAL[i]) {
      assert totals[ALPHABETICAL[i]] == SummedOver(left, right, Eligible(left, right), ALPHABETICAL[i]);
    }
  }

  method QuotientsOf(left: map<Uuid, ComparisonCase>, right: map<Uuid, ComparisonCase>, totals: map<MetricName, MetricDelta>)
    returns (metrics: seq<MetricDelta>)
    requires SummedAll(left, right, Eligible(left, right), totals)
    ensures metrics == DeltasOf(left, right) && forall i {:trigger metrics[i]} | 0 <= i < 10 :: QuotientsStand(metrics[i])
  {
    SummedAllDivide(left, right, Eligible(left, right), totals);
    AlphabeticalIsTextOrder(NameTexts(TerminalMetricNames));
    metrics := SortedMetricDeltas(totals, NameTexts(TerminalMetricNames), ALPHABETICAL);
    DeltasListed(left, right, totals, metrics);
  }

  // ---------------------------------------------------------------- Comparing runs

  /** One named field of the comparison key. */
  datatype KeyField = KeyField(name: string, equal: bool)

  function KeyFields(left: ComparisonKey, right: ComparisonKey): seq<KeyField> {
    [KeyField("dataset_revision_id", left.datasetRevisionID == right.datasetRevisionID),
     KeyField("dataset_content_sha256", left.datasetContentSHA256 == right.datasetContentSHA256),
     KeyField("corpus_id", left.corpusID == right.corpusID),
     KeyField("snapshot_id", left.snapshotID == right.snapshotID),
     KeyField("snapshot_manifest_sha256", left.snapshotManifestSHA256 == right.snapshotManifestSHA256),
     KeyField("ordered_case_set_sha256", left.orderedCaseSetSHA256 == right.orderedCaseSetSHA256),
     KeyField("scoring_policy_version", left.scoringPolicyVersion == right.scoringPolicyVersion)]
  }

  function Differences(fields: seq<KeyField>): seq<string> {
    if fields == [] then []
    else Differences(fields[..|fields| - 1]) + if fields[|fields| - 1].equal then [] else [fields[|fields| - 1].name]
  }

  method ComparisonDifferences(left: ComparisonKey, right: ComparisonKey) returns (differences: seq<string>)
    ensures differences == Differences(KeyFields(left, right))
  {
    var fields := KeyFields(left, right);
    differences := [];
    for index := 0 to |fields|
      invariant differences == Differences(fields[..index])
    {
      assert fields[..index + 1][..index] == fields[..index];
      if !fields[index].equal {
        differences := differences + [fields[index].name];
      }
    }
    assert fields[..|fields|] == fields;
  }

  ghost function ResultOf(left: ComparisonRun, right: ComparisonRun): ComparisonResult {
    if Differences(KeyFields(left.key, right.key)) != [] then
      NonComparable(left.experiment, right.experiment, Differences(KeyFields(left.key, right.key)))
    else
      Comparable(left.experiment, right.experiment, TotalsOf(Index(left.cases), Index(right.cases)),
                 DeltasOf(Index(left.cases), Index(right.cases)))
  }

  /** Compare, once both runs are read. */
  method CompareRuns(left: ComparisonRun, right: ComparisonRun, leftID: Uuid, rightID: Uuid) returns (result: Option<ComparisonResult>)
    ensures result.Some? <==> ValidComparisonRun(left, leftID) && ValidComparisonRun(right, rightID)
    ensures result.Some? ==> result.value == ResultOf(left, right)
    ensures result.Some? && result.value.Comparable? ==>
              |result.value.metrics| == 10 && forall i {:trigger result.value.metrics[i]} | 0 <= i < 10 :: QuotientsStand(result.value.metrics[i])
  {
    var leftOk := ValidateComparisonRun(left, leftID);
    if !leftOk {
      return None;
    }
    var rightOk := ValidateComparisonRun(right, rightID);
    if !rightOk {
      return None;
    }
    var differences := ComparisonDifferences(left.key, right.key);
    if |differences| > 0 {
      return Some(NonComparable(left.experiment, right.experiment, differences));
    }
    ValidCasesAreNamedOnce(left.cases, left.key.scoringPolicyVersion);
    var totals, metrics := CompareCases(left.cases, right.cases);
    result := Some(Comparable(left.experiment, right.experiment, totals, metrics));
  }

  lemma {:induction false} IndexHolds(cases: seq<ComparisonCase>, c: Uuid)
    requires c in Index(cases)
    ensures c != NIL && Index(cases)[c] in cases && Index(cases)[c].datasetCaseID == c
  {
    var last := cases[|cases| - 1];
    if last.datasetCaseID == NIL || last.datasetCaseID != c {
      IndexHolds(cases[..|cases| - 1], c);
    }
  }

  lemma ValidCasesAreNamedOnce(cases: seq<ComparisonCase>, policy: string)
    requires ValidComparisonCases(cases, policy)
    ensures forall c | c in Index(cases) :: NamedOnce(Index(cases)[c])
  {
    forall c | c in Index(cases) ensures NamedOnce(Index(cases)[c]) {
      IndexHolds(cases, c);
      var i :| 0 <= i < |cases| && cases[i] == Index(cases)[c];
      assert ValidComparisonCase(cases[i], policy);
    }
  }

  // ---------------------------------------------------------------- What comparison guarantees

  /** Runs are comparable exactly when their whole keys agree; the experiment may differ. */
  lemma ComparableExactlyOnEqualKeys(left: ComparisonRun, right: ComparisonRun)
    ensures ResultOf(left, right).Comparable? <==> left.key == right.key
  {
    var fields := KeyFields(left.key, right.key);
    NoDifferences(fields);
    if ResultOf(left, right).Comparable? {
      assert fields[0].equal && fields[1].equal && fields[2].equal && fields[3].equal;
      assert fields[4].equal && fields[5].equal && fields[6].equal;
    }
  }

  lemma {:induction false} NoDifferences(fields: seq<KeyField>)
    ensures Differences(fields) == [] <==> forall i | 0 <= i < |fields| :: fields[i].equal
  {
    if fields != [] {
      NoDifferences(fields[..|fields| - 1]);
    }
  }

  lemma SplitSize(all: set<Uuid>, part: set<Uuid>)
    requires part <= all
    ensures |all| == |part| + |all - part|
  {
    assert all == part + (all - part);
  }

  lemma SideConserved(side: map<Uuid, ComparisonCase>, other: map<Uuid, ComparisonCase>)
    ensures |side| == |side.Keys * other.Keys| + |side.Keys - other.Keys|
  {
    SplitSize(side.Keys, side.Keys * other.Keys);
    assert side.Keys - side.Keys * other.Keys == side.Keys - other.Keys && |side| == |side.Keys|;
  }

  /** Every case is counted: paired or unpaired on its side, and every pair eligible or lost to a failure. */
  lemma TotalsConserveCases(left: map<Uuid, ComparisonCase>, right: map<Uuid, ComparisonCase>)
    ensures var totals := TotalsOf(left, right);
            && totals.leftCases == totals.pairedCases + totals.leftUnpaired
            && totals.rightCases == totals.pairedCases + totals.rightUnpaired
            && totals.pairedCases == |Eligible(left, right)| + totals.failedOrCancelled
            && totals.leftFailed + totals.leftCancelled <= totals.leftCases
            && totals.rightFailed + totals.rightCancelled <= totals.rightCases
  {
    SideConserved(left, right);
    SideConserved(right, left);
    assert right.Keys * left.Keys == left.Keys * right.Keys;
    SplitSize(left.Keys * right.Keys, Eligible(left, right));
    FailuresWithin(left);
    FailuresWithin(right);
  }

  lemma FailuresWithin(cases: map<Uuid, ComparisonCase>)
    ensures StateCount(cases, Failed) + StateCount(cases, Cancelled) <= |cases|
  {
    var failed, cancelled := InCaseState(cases, Failed), InCaseState(cases, Cancelled);
    assert failed !! cancelled;
    assert |failed + cancelled| == |failed| + |cancelled|;
    assert cases.Keys == (failed + cancelled) + (cases.Keys - (failed + cancelled)) && |cases| == |cases.Keys|;
  }

  /** No component sums more pairs than are eligible. */
  lemma DeltasCountEligiblePairs(left: map<Uuid, ComparisonCase>, right: map<Uuid, ComparisonCase>, name: MetricName)
    ensures DeltaOf(left, right, name).pairedCases <= |Eligible(left, right)|
  {
    SplitSize(Eligible(left, right), Jointly(left, right, Eligible(left, right), name));
  }

  lemma {:induction false} IndexLookup(cases: seq<ComparisonCase>)
    requires forall i, j | 0 <= i < j < |cases| :: cases[i].datasetCaseID != cases[j].datasetCaseID
    ensures forall i | 0 <= i < |cases| && cases[i].datasetCaseID != NIL ::
              cases[i].datasetCaseID in Index(cases) && Index(cases)[cases[i].datasetCaseID] == cases[i]
  {
    if cases != [] {
      IndexLookup(cases[..|cases| - 1]);
    }
  }

  /** The order of the cases does not matter. */
  lemma IndexIgnoresOrder(cases: seq<ComparisonCase>, permuted: seq<ComparisonCase>)
    requires multiset(cases) == multiset(permuted)
    requires forall i, j | 0 <= i < j < |cases| :: cases[i].datasetCaseID != cases[j].datasetCaseID
    requires forall i, j | 0 <= i < j < |permuted| :: permuted[i].datasetCaseID != permuted[j].datasetCaseID
    ensures Index(cases) == Index(permuted)
  {
    IndexWithin(cases, permuted);
    IndexWithin(permuted, cases);
  }

  lemma IndexWithin(cases: seq<ComparisonCase>, permuted: seq<ComparisonCase>)
    requires multiset(cases) == multiset(permuted)
    requires forall i, j | 0 <= i < j < |permuted| :: permuted[i].datasetCaseID != permuted[j].datasetCaseID
    ensures forall c | c in Index(cases) :: c in Index(permuted) && Index(permuted)[c] == Index(cases)[c]
  {
    IndexLookup(permuted);
    forall c | c in Index(cases) ensures c in Index(permuted) && Index(permuted)[c] == Index(cases)[c] {
      IndexHolds(cases, c);
      assert Index(cases)[c] in multiset(permuted);
      var i :| 0 <= i < |permuted| && permuted[i] == Index(cases)[c];
    }
  }

  /** Presenting either run's cases in another order gives the same result. */
  lemma ResultIgnoresCaseOrder(left: ComparisonRun, right: ComparisonRun, leftID: Uuid, rightID: Uuid, l: seq<ComparisonCase>, r: seq<ComparisonCase>)
    requires ValidComparisonRun(left, leftID) && ValidComparisonRun(right, rightID)
    requires multiset(l) == multiset(left.cases) && multiset(r) == multiset(right.cases)
    requires ValidComparisonCases(l, left.key.scoringPolicyVersion) && ValidComparisonCases(r, right.key.scoringPolicyVersion)
    ensures ResultOf(left.(cases := l), right.(cases := r)) == ResultOf(left, right)
  {
    IndexIgnoresOrder(left.cases, l);
    IndexIgnoresOrder(right.cases, r);
  }

  function SwappedTotals(t: ComparisonTotals): ComparisonTotals {
    ComparisonTotals(
      t.rightCases, t.leftCases, t.pairedCases, t.rightUnpaired, t.leftUnpaired, t.failedOrCancelled,
      t.rightFailed, t.rightCancelled, t.leftFailed, t.leftCancelled)
  }

  function SwappedDelta(d: MetricDelta): MetricDelta {
    MetricDelta(d.name, d.state, d.pairedCases, d.rightNumerator, d.rightDenominator, d.leftNumerator, d.leftDenominator,
                d.rightValue, d.leftValue, if d.delta.Some? then Some(-d.delta.value) else None)
  }

  function Swapped(result: ComparisonResult): ComparisonResult {
    match result
    case NonComparable(left, right, differences) => NonComparable(right, left, differences)
    case Comparable(left, right, totals, metrics) =>
      Comparable(right, left, SwappedTotals(totals), seq(|metrics|, i requires 0 <= i < |metrics| => SwappedDelta(metrics[i])))
  }

  lemma SummedSwaps(left: map<Uuid, ComparisonCase>, right: map<Uuid, ComparisonCase>, cases: set<Uuid>, name: MetricName)
    requires cases <= left.Keys && cases <= right.Keys
    ensures SummedOver(right, left, cases, name) == SwappedDelta(SummedOver(left, right, cases, name))
  {
    JointlySymmetric(left, right, cases, name);
  }

  lemma DeltaSwaps(left: map<Uuid, ComparisonCase>, right: map<Uuid, ComparisonCase>, name: MetricName)
    ensures DeltaOf(right, left, name) == SwappedDelta(DeltaOf(left, right, name))
  {
    assert Eligible(right, left) == Eligible(left, right);
    SummedSwaps(left, right, Eligible(left, right), name);
    ScoredDeltasDivide(left, right, Eligible(left, right), name);
  }

  lemma TotalsSwap(left: map<Uuid, ComparisonCase>, right: map<Uuid, ComparisonCase>)
    ensures TotalsOf(right, left) == SwappedTotals(TotalsOf(left, right))
  {
    assert Eligible(right, left) == Eligible(left, right);
    assert right.Keys * left.Keys == left.Keys * right.Keys;
  }

  /** Swapping the two runs swaps every sum and negates every delta. */
  lemma SwappingRunsSwapsTheResult(left: ComparisonRun, right: ComparisonRun)
    ensures ResultOf(right, left) == Swapped(ResultOf(left, right))
  {
    assert KeyFields(right.key, left.key) == KeyFields(left.key, right.key);
    ComparableExactlyOnEqualKeys(left, right);
    if left.key == right.key {
      var l, r := Index(left.cases), Index(right.cases);
      TotalsSwap(l, r);
      assert DeltasOf(r, l) == Swapped(ResultOf(left, right)).metrics by {
        forall i | 0 <= i < 10 ensures DeltasOf(r, l)[i] == SwappedDelta(DeltasOf(l, r)[i]) {
          DeltaSwaps(l, r, ALPHABETICAL[i]);
        }
      }
    }
  }

  /** Comparing a run with itself gives equal sums, and every scored delta is zero. */
  lemma SelfComparisonIsZero(run: map<Uuid, ComparisonCase>, name: MetricName)
    ensures var d := DeltaOf(run, run, name);
            && d.rightNumerator == d.leftNumerator && d.rightDenominator == d.leftDenominator
            && (d.state == Scored ==> d.delta == Some(0.0))
            && (d.state != Scored ==> d.delta.None?)
  {
    ScoredDeltasDivide(run, run, Eligible(run, run), name);
  }
}
