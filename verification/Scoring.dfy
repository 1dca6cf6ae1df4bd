/** Deterministic scoring: citation markers, evidence coverage and the ten case metrics. */
module Scoring {
  import opened Text
  import opened Evaluation
  import opened Sums

  datatype ExecutionOutcome = ExecCompleted | ExecAbstained | ExecFailed | ExecCancelled | ExecOther(text: string)

  datatype AgentOutcome = NoOutcome | AgentCompleted | AgentAbstained | AgentOther(text: string)

  datatype AgentCaseResult = AgentCaseResult(
    state: ExecutionOutcome, outcome: AgentOutcome, answer: string, retrieved: seq<EvidenceProvenance>,
    latency: Option<int>, inputTokens: Option<int>, outputTokens: Option<int>)

  datatype CitationMarker = CitationMarker(position: int, rank: int, valid: bool)

  datatype MaterializedCase = MaterializedCase(
    corpusID: Uuid, snapshotID: Uuid, state: ExecutionOutcome, outcome: AgentOutcome, answer: string,
    retrieved: seq<ActualEvidence>, cited: seq<ActualEvidence>, markers: seq<CitationMarker>,
    latency: Option<int>, inputTokens: Option<int>, outputTokens: Option<int>)

  const SCORING_POLICY_V1: string := "v1"

  // ---------------------------------------------------------------- Marker scanner

  /** The end of the digit run that starts at position from. */
  function DigitsEnd(s: string, from: nat): (end: nat)
    requires from <= |s|
    ensures from <= end <= |s|
    ensures forall k | from <= k < end :: IsDigit(s[k])
    ensures end < |s| ==> !IsDigit(s[end])
    decreases |s| - from
  {
    if from < |s| && IsDigit(s[from]) then DigitsEnd(s, from + 1) else from
  }

  lemma {:induction false} DigitsEndAt(s: string, from: nat, end: nat)
    requires from <= end < |s| && !IsDigit(s[end])
    requires forall k | from <= k < end :: IsDigit(s[k])
    ensures DigitsEnd(s, from) == end
    decreases end - from
  {
    if from < end {
      DigitsEndAt(s, from + 1, end);
    }
  }

  /** A bracketed digit run occupies positions open to close of s. */
  predicate IsMarker(s: string, open: int, close: int) {
    && 0 <= open && open + 1 < close < |s|
    && s[open] == '[' && s[close] == ']'
    && forall k | open < k < close :: IsDigit(s[k])
  }

  /** regexp.FindAll for the marker pattern: leftmost matches, left to right, not overlapping. */
  function MarkerSpans(s: string, from: nat): seq<(nat, nat)>
    requires from <= |s|
    decreases |s| - from
  {
    if from == |s| then []
    else if s[from] != '[' then MarkerSpans(s, from + 1)
    else
      var close := DigitsEnd(s, from + 1);
      if from + 1 < close < |s| && s[close] == ']' then [(from, close)] + MarkerSpans(s, close + 1)
      else MarkerSpans(s, from + 1)
  }

  /** The spans are the markers from a position on: all of them, nothing else, left to right and apart. */
  ghost predicate ExactSpans(s: string, from: nat, spans: seq<(nat, nat)>) {
    && (forall n | 0 <= n < |spans| :: from <= spans[n].0 && IsMarker(s, spans[n].0, spans[n].1))
    && (forall open: nat, close: nat | from <= open && IsMarker(s, open, close) :: (open, close) in spans)
    && forall m, n | 0 <= m < n < |spans| :: spans[m].1 < spans[n].0
  }

  lemma SpanFound(s: string, from: nat, close: nat, rest: seq<(nat, nat)>)
    requires IsMarker(s, from, close) && ExactSpans(s, close + 1, rest)
    ensures ExactSpans(s, from, [(from, close)] + rest)
  {
    forall open: nat, c: nat | from <= open && IsMarker(s, open, c) ensures (open, c) in [(from, close)] + rest {
      if open == from {
        DigitsEndAt(s, from + 1, c);
        DigitsEndAt(s, from + 1, close);
      } else if open > close {
        assert (open, c) in rest;
      }
    }
  }

  lemma SpanSkipped(s: string, from: nat, spans: seq<(nat, nat)>)
    requires ExactSpans(s, from + 1, spans) && forall c: nat :: !IsMarker(s, from, c)
    ensures ExactSpans(s, from, spans)
  {
  }

  /** A marker opens at a position exactly when the digits after its bracket are some and end in a bracket. */
  predicate Opens(s: string, from: nat)
    requires from < |s|
  {
    s[from] == '[' && from + 1 < DigitsEnd(s, from + 1) < |s| && s[DigitsEnd(s, from + 1)] == ']'
  }

  lemma OpensExactly(s: string, from: nat)
    requires from < |s|
    ensures Opens(s, from) ==> IsMarker(s, from, DigitsEnd(s, from + 1))
    ensures !Opens(s, from) ==> forall c: nat :: !IsMarker(s, from, c)
  {
    forall c: nat | IsMarker(s, from, c) ensures c == DigitsEnd(s, from + 1) {
      DigitsEndAt(s, from + 1, c);
    }
  }

  lemma SpansFrom(s: string, from: nat)
    requires from < |s|
    ensures Opens(s, from) ==> MarkerSpans(s, from) == [(from, DigitsEnd(s, from + 1))] + MarkerSpans(s, DigitsEnd(s, from + 1) + 1)
    ensures !Opens(s, from) ==> MarkerSpans(s, from) == MarkerSpans(s, from + 1)
  {
  }

  /** The scanner finds every bracketed digit run, nothing else, in left-to-right order. */
  lemma {:induction false} MarkerSpansExact(s: string, from: nat)
    requires from <= |s|
    ensures ExactSpans(s, from, MarkerSpans(s, from))
    decreases |s| - from
  {
    if from < |s| {
      OpensExactly(s, from);
      SpansFrom(s, from);
      if Opens(s, from) {
        MarkerSpansExact(s, DigitsEnd(s, from + 1) + 1);
        SpanFound(s, from, DigitsEnd(s, from + 1), MarkerSpans(s, DigitsEnd(s, from + 1) + 1));
      } else {
        MarkerSpansExact(s, from + 1);
        SpanSkipped(s, from, MarkerSpans(s, from + 1));
      }
    }
  }

  /** The submatch of each marker: its digits. */
  function MarkerDigits(s: string): (texts: seq<string>)
    ensures forall n | 0 <= n < |texts| :: texts[n] != "" && AllDigits(texts[n])
  {
    MarkerSpansExact(s, 0);
    seq(|MarkerSpans(s, 0)|, n requires 0 <= n < |MarkerSpans(s, 0)| =>
      s[MarkerSpans(s, 0)[n].0 + 1..MarkerSpans(s, 0)[n].1])
  }

  /** strconv.Atoi on digits: the value, clamped and reported as an error above the int64 range. */
  function MarkerFor(digits: string, position: int, retrievedCount: nat): CitationMarker
    requires AllDigits(digits)
  {
    var n := DigitsValue(digits);
    CitationMarker(position, if n <= MAX_INT64 then n else MAX_INT64, n <= MAX_INT64 && 1 <= n <= retrievedCount)
  }

  function Markers(answer: string, retrievedCount: nat): seq<CitationMarker> {
    var texts := MarkerDigits(answer);
    seq(|texts|, n requires 0 <= n < |texts| => MarkerFor(texts[n], n + 1, retrievedCount))
  }

  method ParseCitationMarkers(answer: string, retrievedCount: nat) returns (markers: seq<CitationMarker>)
    ensures markers == Markers(answer, retrievedCount)
  {
    var matches := MarkerDigits(answer);
    markers := [];
    for index := 0 to |matches|
      invariant markers == Markers(answer, retrievedCount)[..index]
    {
      markers := markers + [MarkerFor(matches[index], index + 1, retrievedCount)];
    }
  }

  /** Text pieces with a rendered marker between neighbours. */
  function Render(pieces: seq<string>, ranks: seq<nat>): string
    requires |pieces| == |ranks| + 1
  {
    if ranks == [] then pieces[0]
    else pieces[0] + "[" + Itoa(ranks[0]) + "]" + Render(pieces[1..], ranks[1..])
  }

  lemma {:induction false} SkipPlainText(s: string, from: nat, end: nat)
    requires from <= end <= |s| && '[' !in s[from..end]
    ensures MarkerSpans(s, from) == MarkerSpans(s, end)
    decreases end - from
  {
    if from < end {
      assert s[from] == s[from..end][0];
      assert s[from + 1..end] == s[from..end][1..];
      SkipPlainText(s, from + 1, end);
    }
  }

  /** What the scanner reports of a text from a position on: each marker's digits are the rendered rank. */
  ghost predicate ReadsRanks(s: string, from: nat, ranks: seq<nat>)
    requires from <= |s|
  {
    var spans := MarkerSpans(s, from);
    && |spans| == |ranks|
    && forall n | 0 <= n < |ranks| :: spans[n].0 < spans[n].1 < |s| && s[spans[n].0 + 1..spans[n].1] == Itoa(ranks[n])
  }

  /** Where the parts of a rendered text lie when it is the tail of s. */
  lemma RenderLayout(s: string, from: nat, piece: string, digits: string, after: string)
    requires from <= |s| && s[from..] == piece + "[" + digits + "]" + after
    ensures var open := from + |piece|; var next := open + |digits| + 2;
            && next <= |s| && s[from..open] == piece && s[open] == '[' && s[next - 1] == ']'
            && s[open + 1..next - 1] == digits && s[next..] == after
  {
    var tail := s[from..];
    var open := |piece|;
    var next := open + |digits| + 2;
    assert tail[..open] == piece && tail[open] == '[' && tail[next - 1] == ']';
    assert tail[open + 1..next - 1] == digits && tail[next..] == after;
    assert s[from + open..][..1] == tail[open..][..1];
  }

  /** A bracketed digit run is the first match from its opening bracket. */
  lemma ScanOneMarker(s: string, open: nat, next: nat, digits: string)
    requires open + 2 < next <= |s| && s[open] == '[' && s[next - 1] == ']' && s[open + 1..next - 1] == digits
    requires AllDigits(digits)
    ensures MarkerSpans(s, open) == [(open, next - 1)] + MarkerSpans(s, next)
  {
    forall k | open + 1 <= k < next - 1 ensures IsDigit(s[k]) { assert s[k] == digits[k - open - 1]; }
    DigitsEndAt(s, open + 1, next - 1);
  }

  lemma ScanStep(s: string, open: nat, next: nat, ranks: seq<nat>)
    requires ranks != [] && open + 1 < next <= |s|
    requires MarkerSpans(s, open) == [(open, next - 1)] + MarkerSpans(s, next)
    requires s[open + 1..next - 1] == Itoa(ranks[0])
    requires ReadsRanks(s, next, ranks[1..])
    ensures ReadsRanks(s, open, ranks)
  {
  }

  lemma {:induction false} ScanRendered(s: string, from: nat, pieces: seq<string>, ranks: seq<nat>)
    requires from <= |s| && |pieces| == |ranks| + 1 && s[from..] == Render(pieces, ranks)
    requires forall n | 0 <= n < |pieces| :: '[' !in pieces[n]
    ensures ReadsRanks(s, from, ranks)
    decreases |ranks|
  {
    var open := from + |pieces[0]|;
    if ranks == [] {
      SkipPlainText(s, from, |s|);
    } else {
      var digits, after := Itoa(ranks[0]), Render(pieces[1..], ranks[1..]);
      var next := open + |digits| + 2;
      ItoaValue(ranks[0]);
      RenderLayout(s, from, pieces[0], digits, after);
      SkipPlainText(s, from, open);
      ScanOneMarker(s, open, next, digits);
      ScanRendered(s, next, pieces[1..], ranks[1..]);
      ScanStep(s, open, next, ranks);
    }
  }

  lemma DigitsRead(s: string, ranks: seq<nat>)
    requires ReadsRanks(s, 0, ranks)
    ensures |MarkerDigits(s)| == |ranks|
    ensures forall n | 0 <= n < |ranks| :: MarkerDigits(s)[n] == Itoa(ranks[n])
  {
  }

  /** Ranks rendered into bracket-free text are read back in order. */
  lemma RenderedMarkersRecovered(pieces: seq<string>, ranks: seq<nat>, retrievedCount: nat)
    requires |pieces| == |ranks| + 1
    requires forall n | 0 <= n < |pieces| :: '[' !in pieces[n]
    requires forall n | 0 <= n < |ranks| :: ranks[n] <= MAX_INT64
    ensures var markers := Markers(Render(pieces, ranks), retrievedCount);
            && |markers| == |ranks|
            && forall n | 0 <= n < |ranks| :: markers[n] == CitationMarker(n + 1, ranks[n], 1 <= ranks[n] <= retrievedCount)
  {
    var s := Render(pieces, ranks);
    assert s[0..] == s;
    ScanRendered(s, 0, pieces, ranks);
    DigitsRead(s, ranks);
    forall n | 0 <= n < |ranks|
      ensures DigitsValue(MarkerDigits(s)[n]) == ranks[n]
    {
      ItoaValue(ranks[n]);
    }
  }

  // ---------------------------------------------------------------- Materialization

  predicate ValidResultState(state: ExecutionOutcome, outcome: AgentOutcome, answer: string) {
    match state
    case ExecCompleted => outcome == AgentCompleted && !Blank(answer)
    case ExecAbstained => outcome == AgentAbstained
    case ExecFailed | ExecCancelled => outcome == NoOutcome
    case ExecOther(_) => false
  }

  predicate AcceptableResult(corpusID: Uuid, snapshotID: Uuid, result: AgentCaseResult) {
    && corpusID != NIL && snapshotID != NIL
    && ValidResultState(result.state, result.outcome, result.answer)
    && ValidMeasurement(result.latency) && ValidMeasurement(result.inputTokens) && ValidMeasurement(result.outputTokens)
    && forall n | 0 <= n < |result.retrieved| :: ValidProvenance(corpusID, snapshotID, result.retrieved[n])
  }

  /** Retrieved records in retrieval order, numbered from one. */
  function RetrievedRecords(items: seq<EvidenceProvenance>): seq<ActualEvidence> {
    seq(|items|, n requires 0 <= n < |items| => ActualEvidence(Retrieved, n + 1, 0, items[n]))
  }

  /** Cited records of the valid markers, in marker order and numbered from one. */
  function CitedRecords(markers: seq<CitationMarker>, retrieved: seq<ActualEvidence>): seq<ActualEvidence>
    requires forall n | 0 <= n < |markers| && markers[n].valid :: 1 <= markers[n].rank <= |retrieved|
  {
    if markers == [] then []
    else
      var marker := markers[|markers| - 1];
      var earlier := CitedRecords(markers[..|markers| - 1], retrieved);
      if marker.valid then
        earlier + [ActualEvidence(Cited, |earlier| + 1, marker.position, retrieved[marker.rank - 1].provenance)]
      else earlier
  }

  method CitedEvidence(markers: seq<CitationMarker>, retrieved: seq<ActualEvidence>) returns (cited: seq<ActualEvidence>)
    requires forall n | 0 <= n < |markers| && markers[n].valid :: 1 <= markers[n].rank <= |retrieved|
    ensures cited == CitedRecords(markers, retrieved)
  {
    cited := [];
    for index := 0 to |markers|
      invariant cited == CitedRecords(markers[..index], retrieved)
    {
      var marker := markers[index];
      assert markers[..index + 1][..index] == markers[..index];
      if marker.valid {
        cited := cited + [ActualEvidence(Cited, |cited| + 1, marker.position, retrieved[marker.rank - 1].provenance)];
      }
    }
    assert markers[..|markers|] == markers;
  }

  function MaterializedOf(corpusID: Uuid, snapshotID: Uuid, result: AgentCaseResult): MaterializedCase {
    var retrieved := RetrievedRecords(result.retrieved);
    var markers := Markers(result.answer, |retrieved|);
    MaterializedCase(
      corpusID, snapshotID, result.state, result.outcome, result.answer,
      retrieved, CitedRecords(markers, retrieved), markers,
      result.latency, result.inputTokens, result.outputTokens)
  }

  method MaterializeCaseResult(corpusID: Uuid, snapshotID: Uuid, result: AgentCaseResult) returns (r: Option<MaterializedCase>)
    ensures r.Some? <==> AcceptableResult(corpusID, snapshotID, result)
    ensures r.Some? ==> r.value == MaterializedOf(corpusID, snapshotID, result)
  {
    if corpusID == NIL || snapshotID == NIL || !ValidResultState(result.state, result.outcome, result.answer) ||
       !ValidMeasurement(result.latency) || !ValidMeasurement(result.inputTokens) || !ValidMeasurement(result.outputTokens)
    {
      return None;
    }
    var retrieved := [];
    for index := 0 to |result.retrieved|
      invariant retrieved == RetrievedRecords(result.retrieved)[..index]
      invariant forall n | 0 <= n < index :: ValidProvenance(corpusID, snapshotID, result.retrieved[n])
    {
      if !ValidProvenance(corpusID, snapshotID, result.retrieved[index]) {
        return None;
      }
      retrieved := retrieved + [ActualEvidence(Retrieved, index + 1, 0, result.retrieved[index])];
    }
    assert retrieved == RetrievedRecords(result.retrieved);
    assert AcceptableResult(corpusID, snapshotID, result);
    var markers := ParseCitationMarkers(result.answer, |retrieved|);
    var cited := CitedEvidence(markers, retrieved);
    r := Some(MaterializedCase(
      corpusID, snapshotID, result.state, result.outcome, result.answer, retrieved, cited, markers,
      result.latency, result.inputTokens, result.outputTokens));
  }

  /** Cited records are numbered from one, point back at markers, and only repeat retrieved provenance. */
  lemma {:induction false} CitedComesFromRetrieved(markers: seq<CitationMarker>, retrieved: seq<ActualEvidence>)
    requires forall n | 0 <= n < |markers| && markers[n].valid :: 1 <= markers[n].rank <= |retrieved|
    requires forall n | 0 <= n < |markers| :: markers[n].position >= 1
    ensures forall n | 0 <= n < |CitedRecords(markers, retrieved)| ::
              var item := CitedRecords(markers, retrieved)[n];
              && item.kind == Cited && item.position == n + 1 && item.markerPosition >= 1
              && exists k :: 0 <= k < |retrieved| && retrieved[k].provenance == item.provenance
  {
    if markers != [] {
      CitedComesFromRetrieved(markers[..|markers| - 1], retrieved);
    }
  }

  // ---------------------------------------------------------------- Evidence identity and coverage

  /** The text key under which coverage compares evidence. */
  function EvidenceIdentity(p: EvidenceProvenance): string {
    Join(IdentityParts(p), '|')
  }

  function IdentityParts(p: EvidenceProvenance): seq<string> {
    [UuidString(p.sourceID), UuidString(p.sourceRevisionID), UuidString(p.documentID), UuidString(p.unitID),
     p.canonicalLocator, ItoaInt(p.startOffset), ItoaInt(p.endOffset), p.contentSHA256]
  }

  lemma IdentityPartsHaveNoBar(corpusID: Uuid, snapshotID: Uuid, p: EvidenceProvenance)
    requires ValidProvenance(corpusID, snapshotID, p)
    ensures forall i | 0 <= i < |IdentityParts(p)| :: '|' !in IdentityParts(p)[i]
  {
    UuidStringShape(p.sourceID);
    UuidStringShape(p.sourceRevisionID);
    UuidStringShape(p.documentID);
    UuidStringShape(p.unitID);
    CanonicalLocatorHasNoBar(p.canonicalLocator);
    ItoaIntHasNo(p.startOffset, '|');
    ItoaIntHasNo(p.endOffset, '|');
  }

  /** Inside one corpus snapshot the text key identifies the evidence. */
  lemma EvidenceIdentityInjective(corpusID: Uuid, snapshotID: Uuid, p: EvidenceProvenance, q: EvidenceProvenance)
    requires ValidProvenance(corpusID, snapshotID, p) && ValidProvenance(corpusID, snapshotID, q)
    requires EvidenceIdentity(p) == EvidenceIdentity(q)
    ensures p == q
  {
    IdentityPartsHaveNoBar(corpusID, snapshotID, p);
    IdentityPartsHaveNoBar(corpusID, snapshotID, q);
    var a, b := IdentityParts(p), IdentityParts(q);
    JoinInjective(a, b, '|');
    assert a[0] == b[0] && a[1] == b[1] && a[2] == b[2] && a[3] == b[3];
    assert a[4] == b[4] && a[5] == b[5] && a[6] == b[6] && a[7] == b[7];
    UuidStringOrder(p.sourceID, q.sourceID);
    UuidStringOrder(p.sourceRevisionID, q.sourceRevisionID);
    UuidStringOrder(p.documentID, q.documentID);
    UuidStringOrder(p.unitID, q.unitID);
    ItoaIntInjective(p.startOffset, q.startOffset);
    ItoaIntInjective(p.endOffset, q.endOffset);
  }

  function Locations(records: seq<ActualEvidence>): seq<EvidenceProvenance> {
    seq(|records|, n requires 0 <= n < |records| => records[n].provenance)
  }

  ghost function IdentitySet(items: seq<EvidenceProvenance>): set<string>
  {
    set n | 0 <= n < |items| :: EvidenceIdentity(items[n])
  }

  /** How many distinct expected items occur among the actual ones. */
  ghost function Covered(expected: seq<EvidenceProvenance>, actual: seq<EvidenceProvenance>): nat
  {
    |IdentitySet(expected) * IdentitySet(actual)|
  }

  method Identities(items: seq<EvidenceProvenance>) returns (keys: set<string>)
    ensures keys == IdentitySet(items)
  {
    keys := {};
    for index := 0 to |items|
      invariant keys == set n | 0 <= n < index :: EvidenceIdentity(items[n])
    {
      keys := keys + {EvidenceIdentity(items[index])};
    }
  }

  method CountCommon(keys: set<string>, others: set<string>) returns (common: nat)
    ensures common == |keys * others|
  {
    common := 0;
    var pending := keys;
    ghost var counted: set<string> := {};
    while pending != {}
      invariant pending <= keys
      invariant counted == (keys - pending) * others
      invariant common == |counted|
      decreases pending
    {
      var key :| key in pending;
      pending := pending - {key};
      if key in others {
        common := common + 1;
        counted := counted + {key};
      }
    }
    assert counted == keys * others;
  }

  method ExpectedCoverage(expected: seq<EvidenceProvenance>, actual: seq<EvidenceProvenance>) returns (covered: nat, denominator: nat)
    ensures covered == Covered(expected, actual)
    ensures denominator == |IdentitySet(expected)|
  {
    var expectedKeys := Identities(expected);
    denominator := |expectedKeys|;
    if denominator == 0 {
      assert expectedKeys * IdentitySet(actual) == {};
      return 0, 0;
    }
    var actualKeys := Identities(actual);
    covered := CountCommon(expectedKeys, actualKeys);
  }

  ghost function ItemSet(items: seq<EvidenceProvenance>): set<EvidenceProvenance> {
    set n | 0 <= n < |items| :: items[n]
  }

  /** A set and its image under a key that is one-to-one on it have the same size. */
  lemma {:induction false} ImageSize(corpusID: Uuid, snapshotID: Uuid, items: set<EvidenceProvenance>, keys: set<string>)
    requires forall p | p in items :: ValidProvenance(corpusID, snapshotID, p)
    requires forall key :: key in keys <==> exists p :: p in items && EvidenceIdentity(p) == key
    ensures |items| == |keys|
    decreases |items|
  {
    if items == {} {
      assert keys == {};
    } else {
      var p :| p in items;
      forall q | q in items && q != p ensures EvidenceIdentity(q) != EvidenceIdentity(p) {
        if EvidenceIdentity(q) == EvidenceIdentity(p) {
          EvidenceIdentityInjective(corpusID, snapshotID, p, q);
        }
      }
      ImageSize(corpusID, snapshotID, items - {p}, keys - {EvidenceIdentity(p)});
    }
  }

  /** Coverage counts evidence locations: text keys neither merge nor split them. */
  lemma CoverageCountsLocations(corpusID: Uuid, snapshotID: Uuid, expected: seq<EvidenceProvenance>, actual: seq<EvidenceProvenance>)
    requires forall n | 0 <= n < |expected| :: ValidProvenance(corpusID, snapshotID, expected[n])
    requires forall n | 0 <= n < |actual| :: ValidProvenance(corpusID, snapshotID, actual[n])
    ensures Covered(expected, actual) == |ItemSet(expected) * ItemSet(actual)|
    ensures |IdentitySet(expected)| == |ItemSet(expected)|
  {
    ImageSize(corpusID, snapshotID, ItemSet(expected), IdentitySet(expected));
    forall key | key in IdentitySet(expected) * IdentitySet(actual)
      ensures exists p :: p in ItemSet(expected) * ItemSet(actual) && EvidenceIdentity(p) == key
    {
      var p := CommonItem(corpusID, snapshotID, expected, actual, key);
    }
    ImageSize(corpusID, snapshotID, ItemSet(expected) * ItemSet(actual), IdentitySet(expected) * IdentitySet(actual));
  }

  lemma CommonItem(corpusID: Uuid, snapshotID: Uuid, expected: seq<EvidenceProvenance>, actual: seq<EvidenceProvenance>, key: string)
    returns (p: EvidenceProvenance)
    requires forall n | 0 <= n < |expected| :: ValidProvenance(corpusID, snapshotID, expected[n])
    requires forall n | 0 <= n < |actual| :: ValidProvenance(corpusID, snapshotID, actual[n])
    requires key in IdentitySet(expected) && key in IdentitySet(actual)
    ensures p in ItemSet(expected) && p in ItemSet(actual) && EvidenceIdentity(p) == key
  {
    var m :| 0 <= m < |expected| && EvidenceIdentity(expected[m]) == key;
    var n :| 0 <= n < |actual| && EvidenceIdentity(actual[n]) == key;
    EvidenceIdentityInjective(corpusID, snapshotID, expected[m], actual[n]);
    p := expected[m];
  }

  // ---------------------------------------------------------------- Case metrics

  datatype CaseScore = CaseScore(scoringPolicyVersion: string, metrics: seq<Metric>)

  /** The explanations a score carries. */
  datatype Rationales = Rationales(
    retrieval: string, citation: string, validity: string, scope: string, execution: string,
    latency: string, inputTokens: string, outputTokens: string, semantic: string,
    noTargets: string, noMarkers: string, noAbstention: string, abstained: string, answered: string, noMeasurement: string)

  // The fixed explanations of scorer version one.
  const V1_RATIONALES := Rationales(
    "unique expected evidence retrieved from the fixed snapshot",
    "unique expected evidence cited by answer markers",
    "citation markers resolve to ordered retrieved evidence",
    "cited evidence remains within the fixed corpus snapshot",
    "case reached a scoreable terminal state",
    "reported end-to-end latency",
    "reported input token use",
    "reported output token use",
    "claim-to-citation support requires a reviewed human rubric",
    "no expected evidence targets",
    "answer contains no citation markers",
    "case does not require abstention",
    "agent abstained as required",
    "agent answered when abstention was required",
    "measurement was not reported")

  predicate NoneBlank(why: Rationales) {
    && ReachedNotBlank(why) && ReportedNotBlank(why) && MissingNotBlank(why)
  }

  predicate ReachedNotBlank(why: Rationales) {
    && !Blank(why.retrieval) && !Blank(why.citation) && !Blank(why.validity) && !Blank(why.scope) && !Blank(why.execution)
  }

  predicate ReportedNotBlank(why: Rationales) {
    && !Blank(why.latency) && !Blank(why.inputTokens) && !Blank(why.outputTokens) && !Blank(why.semantic)
    && !Blank(why.noMeasurement)
  }

  predicate MissingNotBlank(why: Rationales) {
    && !Blank(why.noTargets) && !Blank(why.noMarkers) && !Blank(why.noAbstention) && !Blank(why.abstained) && !Blank(why.answered)
  }

  lemma EndsInWord(text: string)
    requires text != [] && !IsSpace(text[|text| - 1])
    ensures !Blank(text)
  {
  }

  lemma ReachedRationales()
    ensures ReachedNotBlank(V1_RATIONALES)
  {
    var why := V1_RATIONALES;
    EndsInWord(why.retrieval); EndsInWord(why.citation); EndsInWord(why.validity); EndsInWord(why.scope);
    EndsInWord(why.execution);
  }

  lemma ReportedRationales()
    ensures ReportedNotBlank(V1_RATIONALES)
  {
    var why := V1_RATIONALES;
    EndsInWord(why.latency); EndsInWord(why.inputTokens); EndsInWord(why.outputTokens); EndsInWord(why.semantic);
    EndsInWord(why.noMeasurement);
  }

  lemma MissingRationales()
    ensures MissingNotBlank(V1_RATIONALES)
  {
    var why := V1_RATIONALES;
    EndsInWord(why.noTargets); EndsInWord(why.noMarkers); EndsInWord(why.noAbstention); EndsInWord(why.abstained);
    EndsInWord(why.answered);
  }

  lemma V1RationalesAreNotBlank()
    ensures NoneBlank(V1_RATIONALES)
  {
    ReachedRationales();
    ReportedRationales();
    MissingRationales();
  }

  function ScoredMetric(name: MetricName, numerator: int, denominator: int, rationale: string): Metric
    requires denominator != 0
  {
    Metric(name, Scored, Some(numerator as real / denominator as real), numerator, denominator, rationale)
  }

  function Unscored(name: MetricName, state: MetricState, rationale: string): Metric {
    Metric(name, state, None, 0, 0, rationale)
  }

  function CoverageMetric(name: MetricName, numerator: int, denominator: int, rationale: string, why: Rationales): Metric {
    if denominator == 0 then Unscored(name, NotApplicable, why.noTargets)
    else ScoredMetric(name, numerator, denominator, rationale)
  }

  function ValidCount(markers: seq<CitationMarker>): (count: nat)
    ensures count <= |markers|
  {
    if markers == [] then 0
    else ValidCount(markers[..|markers| - 1]) + if markers[|markers| - 1].valid then 1 else 0
  }

  function MarkerMetric(name: MetricName, markers: seq<CitationMarker>, rationale: string, why: Rationales): Metric {
    if markers == [] then Unscored(name, NotApplicable, why.noMarkers)
    else ScoredMetric(name, ValidCount(markers), |markers|, rationale)
  }

  /** citationValidityMetric and citationScopeMetric: both count the markers that resolve. */
  method CountedMarkerMetric(name: MetricName, markers: seq<CitationMarker>, rationale: string, why: Rationales) returns (metric: Metric)
    ensures metric == MarkerMetric(name, markers, rationale, why)
  {
    if |markers| == 0 {
      return Unscored(name, NotApplicable, why.noMarkers);
    }
    var valid := 0;
    for index := 0 to |markers|
      invariant valid == ValidCount(markers[..index])
    {
      assert markers[..index + 1][..index] == markers[..index];
      if markers[index].valid {
        valid := valid + 1;
      }
    }
    assert markers[..|markers|] == markers;
    metric := ScoredMetric(name, valid, |markers|, rationale);
  }

  function ExpectedAbstentionMetric(expected: ExpectedOutcome, actual: AgentOutcome, why: Rationales): Metric {
    if expected != ExpectAbstain then Unscored(ExpectedAbstention, NotApplicable, why.noAbstention)
    else if actual == AgentAbstained then ScoredMetric(ExpectedAbstention, 1, 1, why.abstained)
    else ScoredMetric(ExpectedAbstention, 0, 1, why.answered)
  }

  function TelemetryMetric(name: MetricName, value: Option<int>, rationale: string, why: Rationales): Metric {
    match value
    case None => Unscored(name, NotApplicable, why.noMeasurement)
    case Some(v) => ScoredMetric(name, v, 1, rationale)
  }

  function UnscoredSet(rationale: string): seq<Metric> {
    [Unscored(RetrievalCoverage, NotScored, rationale), Unscored(CitationCoverage, NotScored, rationale),
     Unscored(CitationValidity, NotScored, rationale), Unscored(CitationScope, NotScored, rationale),
     Unscored(ExpectedAbstention, NotScored, rationale), Unscored(ExecutionState, NotScored, rationale),
     Unscored(Latency, NotScored, rationale), Unscored(InputTokens, NotScored, rationale),
     Unscored(OutputTokens, NotScored, rationale), Unscored(SemanticSupport, NotScored, rationale)]
  }

  function FailureRationale(state: ExecutionOutcome): string {
    (match state
     case ExecFailed => "failed"
     case ExecCancelled => "cancelled"
     case _ => "") + " cases are never assigned synthetic scores"
  }

  predicate FailedExecution(state: ExecutionOutcome) {
    state.ExecFailed? || state.ExecCancelled?
  }

  ghost function ScoreMetrics(
    expectedOutcome: ExpectedOutcome, expected: seq<EvidenceProvenance>, actual: MaterializedCase, why: Rationales): seq<Metric>
  {
    if FailedExecution(actual.state) then UnscoredSet(FailureRationale(actual.state))
    else
      var targets := |IdentitySet(expected)|;
      [CoverageMetric(RetrievalCoverage, Covered(expected, Locations(actual.retrieved)), targets, why.retrieval, why),
       CoverageMetric(CitationCoverage, Covered(expected, Locations(actual.cited)), targets, why.citation, why),
       MarkerMetric(CitationValidity, actual.markers, why.validity, why),
       MarkerMetric(CitationScope, actual.markers, why.scope, why),
       ExpectedAbstentionMetric(expectedOutcome, actual.outcome, why),
       ScoredMetric(ExecutionState, 1, 1, why.execution),
       TelemetryMetric(Latency, actual.latency, why.latency, why),
       TelemetryMetric(InputTokens, actual.inputTokens, why.inputTokens, why),
       TelemetryMetric(OutputTokens, actual.outputTokens, why.outputTokens, why),
       Unscored(SemanticSupport, NeedsHumanReview, why.semantic)]
  }

  /** validMaterializedResult: every derived part is what materialization derives. */
  predicate ValidMaterialized(actual: MaterializedCase) {
    && ValidResultState(actual.state, actual.outcome, actual.answer)
    && ValidMeasurement(actual.latency) && ValidMeasurement(actual.inputTokens) && ValidMeasurement(actual.outputTokens)
    && (forall n | 0 <= n < |actual.retrieved| ::
          && actual.retrieved[n].kind == Retrieved && actual.retrieved[n].position == n + 1
          && actual.retrieved[n].markerPosition == 0
          && ValidProvenance(actual.corpusID, actual.snapshotID, actual.retrieved[n].provenance))
    && actual.markers == Markers(actual.answer, |actual.retrieved|)
    && actual.cited == CitedRecords(actual.markers, actual.retrieved)
    && (forall n | 0 <= n < |actual.cited| ::
          && actual.cited[n].kind == Cited && actual.cited[n].position == n + 1
          && actual.cited[n].markerPosition >= 1
          && ValidProvenance(actual.corpusID, actual.snapshotID, actual.cited[n].provenance))
  }

  predicate ScoreableInput(expectedOutcome: ExpectedOutcome, expected: seq<EvidenceProvenance>, actual: MaterializedCase) {
    && (expectedOutcome == ExpectAnswer || expectedOutcome == ExpectAbstain)
    && actual.corpusID != NIL && actual.snapshotID != NIL
    && ValidMaterialized(actual)
    && forall n | 0 <= n < |expected| :: ValidProvenance(actual.corpusID, actual.snapshotID, expected[n])
  }

  method ScoreCaseV1(expectedOutcome: ExpectedOutcome, expected: seq<EvidenceProvenance>, actual: MaterializedCase)
    returns (score: Option<CaseScore>)
    ensures score.Some? <==> ScoreableInput(expectedOutcome, expected, actual)
    ensures score.Some? ==>
              score.value == CaseScore(SCORING_POLICY_V1, ScoreMetrics(expectedOutcome, expected, actual, V1_RATIONALES))
    ensures score.Some? && !FailedExecution(actual.state) ==>
              var m := score.value.metrics;
              && |m| == 10 && EvidenceReport(m[0], m[1], m[2], m[3], expected, actual)
              && OutcomeReport(m[4], m[5], m[6], m[7], m[8], m[9], expectedOutcome, actual)
    ensures score.Some? && FailedExecution(actual.state) ==> forall m | m in score.value.metrics :: m.state == NotScored
  {
    if !(expectedOutcome == ExpectAnswer || expectedOutcome == ExpectAbstain) ||
       actual.corpusID == NIL || actual.snapshotID == NIL || !ValidMaterialized(actual)
    {
      return None;
    }
    for index := 0 to |expected|
      invariant forall n | 0 <= n < index :: ValidProvenance(actual.corpusID, actual.snapshotID, expected[n])
    {
      if !ValidProvenance(actual.corpusID, actual.snapshotID, expected[index]) {
        return None;
      }
    }
    var metrics := MetricsV1(expectedOutcome, expected, actual, V1_RATIONALES);
    score := Some(CaseScore(SCORING_POLICY_V1, metrics));
    if FailedExecution(actual.state) {
      FailuresAreNotScored(expectedOutcome, expected, actual, V1_RATIONALES);
    } else {
      EvidenceMetricsReport(expectedOutcome, expected, actual, V1_RATIONALES);
      OutcomeMetricsReport(expectedOutcome, expected, actual, V1_RATIONALES);
    }
  }

  method MetricsV1(expectedOutcome: ExpectedOutcome, expected: seq<EvidenceProvenance>, actual: MaterializedCase, why: Rationales)
    returns (metrics: seq<Metric>)
    ensures metrics == ScoreMetrics(expectedOutcome, expected, actual, why)
  {
    if FailedExecution(actual.state) {
      return UnscoredSet(FailureRationale(actual.state));
    }
    var retrievalNumerator, retrievalDenominator := ExpectedCoverage(expected, Locations(actual.retrieved));
    var citationNumerator, citationDenominator := ExpectedCoverage(expected, Locations(actual.cited));
    var validity := CountedMarkerMetric(CitationValidity, actual.markers, why.validity, why);
    var scope := CountedMarkerMetric(CitationScope, actual.markers, why.scope, why);
    metrics :=
      [CoverageMetric(RetrievalCoverage, retrievalNumerator, retrievalDenominator, why.retrieval, why),
       CoverageMetric(CitationCoverage, citationNumerator, citationDenominator, why.citation, why),
       validity,
       scope,
       ExpectedAbstentionMetric(expectedOutcome, actual.outcome, why),
       ScoredMetric(ExecutionState, 1, 1, why.execution),
       TelemetryMetric(Latency, actual.latency, why.latency, why),
       TelemetryMetric(InputTokens, actual.inputTokens, why.inputTokens, why),
       TelemetryMetric(OutputTokens, actual.outputTokens, why.outputTokens, why),
       Unscored(SemanticSupport, NeedsHumanReview, why.semantic)];
  }

  // ---------------------------------------------------------------- What scoring guarantees

  lemma MarkersShape(answer: string, retrievedCount: nat)
    ensures forall n | 0 <= n < |Markers(answer, retrievedCount)| ::
              var marker := Markers(answer, retrievedCount)[n];
              marker.position == n + 1 && (marker.valid ==> 1 <= marker.rank <= retrievedCount)
  {
  }

  /** An accepted agent result always passes the scorer's own check of the materialized case. */
  lemma AcceptedResultsAreScoreable(
    corpusID: Uuid, snapshotID: Uuid, result: AgentCaseResult, expectedOutcome: ExpectedOutcome, expected: seq<EvidenceProvenance>)
    requires AcceptableResult(corpusID, snapshotID, result)
    requires expectedOutcome == ExpectAnswer || expectedOutcome == ExpectAbstain
    requires forall n | 0 <= n < |expected| :: ValidProvenance(corpusID, snapshotID, expected[n])
    ensures ScoreableInput(expectedOutcome, expected, MaterializedOf(corpusID, snapshotID, result))
  {
    var actual := MaterializedOf(corpusID, snapshotID, result);
    MarkersShape(actual.answer, |actual.retrieved|);
    CitedComesFromRetrieved(actual.markers, actual.retrieved);
    forall n | 0 <= n < |actual.cited|
      ensures ValidProvenance(corpusID, snapshotID, actual.cited[n].provenance)
    {
      var k :| 0 <= k < |actual.retrieved| && actual.retrieved[k].provenance == actual.cited[n].provenance;
    }
  }

  /** Citations never cover more of the expected evidence than retrieval does. */
  lemma CitationCoverageWithinRetrieval(expected: seq<EvidenceProvenance>, actual: MaterializedCase)
    requires ValidMaterialized(actual)
    ensures IdentitySet(Locations(actual.cited)) <= IdentitySet(Locations(actual.retrieved))
    ensures Covered(expected, Locations(actual.cited)) <= Covered(expected, Locations(actual.retrieved)) <= |IdentitySet(expected)|
  {
    var cited, retrieved := Locations(actual.cited), Locations(actual.retrieved);
    MarkersShape(actual.answer, |actual.retrieved|);
    CitedComesFromRetrieved(actual.markers, actual.retrieved);
    forall key | key in IdentitySet(cited)
      ensures key in IdentitySet(retrieved)
    {
      var n :| 0 <= n < |cited| && EvidenceIdentity(cited[n]) == key;
      var k :| 0 <= k < |actual.retrieved| && actual.retrieved[k].provenance == actual.cited[n].provenance;
      assert EvidenceIdentity(retrieved[k]) == key;
    }
    SubsetSize(IdentitySet(expected) * IdentitySet(cited), IdentitySet(expected) * IdentitySet(retrieved));
    SubsetSize(IdentitySet(expected) * IdentitySet(retrieved), IdentitySet(expected));
  }

  /** There are no more markers than characters. */
  lemma {:induction false} SpansWithinText(s: string, from: nat)
    requires from <= |s|
    ensures |MarkerSpans(s, from)| <= |s| - from
    decreases |s| - from
  {
    if from < |s| {
      var end := if s[from] == '[' then DigitsEnd(s, from + 1) else from;
      if s[from] == '[' && end > from + 1 && end < |s| && s[end] == ']' {
        SpansWithinText(s, end + 1);
      } else {
        SpansWithinText(s, from + 1);
      }
    }
  }

  lemma MarkersWithinAnswer(answer: string, retrievedCount: nat)
    ensures |Markers(answer, retrievedCount)| <= |answer|
  {
    SpansWithinText(answer, 0);
  }

  /** No more records are cited than there are markers, and their marker positions are among the markers'. */
  lemma {:induction false} CitedWithinMarkers(markers: seq<CitationMarker>, retrieved: seq<ActualEvidence>, bound: int)
    requires forall n | 0 <= n < |markers| && markers[n].valid :: 1 <= markers[n].rank <= |retrieved|
    requires forall n | 0 <= n < |markers| :: markers[n].position <= bound
    ensures |CitedRecords(markers, retrieved)| <= |markers|
    ensures forall n | 0 <= n < |CitedRecords(markers, retrieved)| :: CitedRecords(markers, retrieved)[n].markerPosition <= bound
  {
    if markers != [] {
      CitedWithinMarkers(markers[..|markers| - 1], retrieved, bound);
    }
  }

  /** Each marker that resolves cites the retrieved record of its rank, in marker order. */
  lemma {:induction false} CitedFollowMarkers(markers: seq<CitationMarker>, retrieved: seq<ActualEvidence>, n: nat)
    requires forall n | 0 <= n < |markers| && markers[n].valid :: 1 <= markers[n].rank <= |retrieved|
    requires n < |markers| && markers[n].valid
    ensures var k, cited := ValidCount(markers[..n]), CitedRecords(markers, retrieved);
            && k < |cited| && cited[k].kind == Cited && cited[k].position == k + 1
            && cited[k].markerPosition == markers[n].position && cited[k].provenance == retrieved[markers[n].rank - 1].provenance
  {
    var earlier := markers[..|markers| - 1];
    if n < |markers| - 1 {
      CitedFollowMarkers(earlier, retrieved, n);
      assert earlier[..n] == markers[..n];
    } else {
      ValidMarkersAreCited(earlier, retrieved);
    }
  }

  /** An answer that renders ranks cites exactly the retrieved items of those in range, in the order in which it names them. */
  lemma RenderedRanksAreCited(corpusID: Uuid, snapshotID: Uuid, result: AgentCaseResult, pieces: seq<string>, ranks: seq<nat>)
    requires |pieces| == |ranks| + 1 && result.answer == Render(pieces, ranks)
    requires forall n | 0 <= n < |pieces| :: '[' !in pieces[n]
    requires forall n | 0 <= n < |ranks| :: ranks[n] <= MAX_INT64
    ensures var actual := MaterializedOf(corpusID, snapshotID, result);
            && |actual.markers| == |ranks| && |actual.cited| == ValidCount(actual.markers)
            && forall n: nat | n < |ranks| && 1 <= ranks[n] <= |result.retrieved| ::
                 CitesAt(actual.cited, ValidCount(actual.markers[..n]), n + 1, result.retrieved[ranks[n] - 1])
  {
    var retrieved := RetrievedRecords(result.retrieved);
    RenderedMarkersRecovered(pieces, ranks, |result.retrieved|);
    RankedMarkersCite(Markers(result.answer, |retrieved|), retrieved, ranks, result.retrieved);
  }

  lemma RankedMarkersCite(
    markers: seq<CitationMarker>, retrieved: seq<ActualEvidence>, ranks: seq<nat>, items: seq<EvidenceProvenance>)
    requires |markers| == |ranks| && |retrieved| == |items|
    requires forall n | 0 <= n < |ranks| :: markers[n] == CitationMarker(n + 1, ranks[n], 1 <= ranks[n] <= |items|)
    requires forall n | 0 <= n < |items| :: retrieved[n].provenance == items[n]
    ensures var cited := CitedRecords(markers, retrieved);
            && |cited| == ValidCount(markers)
            && forall n: nat | n < |ranks| && 1 <= ranks[n] <= |items| :: CitesAt(cited, ValidCount(markers[..n]), n + 1, items[ranks[n] - 1])
  {
    ValidMarkersAreCited(markers, retrieved);
    forall n: nat | n < |ranks| && 1 <= ranks[n] <= |items|
      ensures CitesAt(CitedRecords(markers, retrieved), ValidCount(markers[..n]), n + 1, items[ranks[n] - 1])
    {
      CitedFollowMarkers(markers, retrieved, n);
    }
  }

  /** Record k cites an item for the marker at a position. */
  predicate CitesAt(cited: seq<ActualEvidence>, k: nat, position: int, item: EvidenceProvenance) {
    k < |cited| && cited[k].markerPosition == position && cited[k].provenance == item
  }

  /** Every marker that resolves cites one record, so validity counts the cited evidence. */
  lemma {:induction false} ValidMarkersAreCited(markers: seq<CitationMarker>, retrieved: seq<ActualEvidence>)
    requires forall n | 0 <= n < |markers| && markers[n].valid :: 1 <= markers[n].rank <= |retrieved|
    ensures ValidCount(markers) == |CitedRecords(markers, retrieved)|
  {
    if markers != [] {
      ValidMarkersAreCited(markers[..|markers| - 1], retrieved);
    }
  }

  lemma QuotientMonotone(x: real, y: real, total: real)
    requires x <= y && total > 0.0
    ensures x / total <= y / total
  {
    var gap := (y - x) / total;
    assert y / total - x / total == gap;
    assert gap >= 0.0;
  }

  /** The quotients of the scored pair keep the order of the counts. */
  lemma QuotientsFollowCounts(small: nat, large: nat, total: nat)
    requires small <= large <= total && total > 0
    ensures 0.0 <= small as real / total as real <= large as real / total as real <= 1.0
  {
    QuotientMonotone(0.0, small as real, total as real);
    QuotientMonotone(small as real, large as real, total as real);
    QuotientMonotone(large as real, total as real, total as real);
  }

  /** A coverage metric reports the share of the expected locations found among the actual ones. */
  ghost predicate ReportsShare(metric: Metric, expected: seq<EvidenceProvenance>, actual: seq<EvidenceProvenance>) {
    if expected == [] then metric.state == NotApplicable && metric.value == None
    else
      && metric.state == Scored && metric.value.Some?
      && metric.numerator == |ItemSet(expected) * ItemSet(actual)| && metric.denominator == |ItemSet(expected)|
      && metric.denominator > 0 && metric.value.value == metric.numerator as real / metric.denominator as real
  }

  lemma CoverageReportsShare(
    corpusID: Uuid, snapshotID: Uuid, name: MetricName, expected: seq<EvidenceProvenance>, actual: seq<EvidenceProvenance>,
    rationale: string, why: Rationales)
    requires forall n | 0 <= n < |expected| :: ValidProvenance(corpusID, snapshotID, expected[n])
    requires forall n | 0 <= n < |actual| :: ValidProvenance(corpusID, snapshotID, actual[n])
    ensures ReportsShare(CoverageMetric(name, Covered(expected, actual), |IdentitySet(expected)|, rationale, why), expected, actual)
  {
    CoverageCountsLocations(corpusID, snapshotID, expected, actual);
    if expected != [] {
      assert expected[0] in ItemSet(expected);
    } else {
      assert ItemSet(expected) == {};
    }
  }

  /** Shares of expected locations retrieved and cited, the second never above the first, and of markers that cite a record. */
  ghost predicate EvidenceReport(
    retrieval: Metric, citation: Metric, validity: Metric, scope: Metric, expected: seq<EvidenceProvenance>, actual: MaterializedCase)
  {
    && ReportsShare(retrieval, expected, Locations(actual.retrieved))
    && ReportsShare(citation, expected, Locations(actual.cited))
    && (expected != [] ==> 0.0 <= citation.value.value <= retrieval.value.value <= 1.0)
    && (actual.markers == [] ==> validity.state == scope.state == NotApplicable)
    && (actual.markers != [] ==>
          && validity.state == scope.state == Scored
          && validity.numerator == scope.numerator == |actual.cited|
          && validity.denominator == scope.denominator == |actual.markers|
          && validity.value == scope.value == Some(|actual.cited| as real / |actual.markers| as real))
  }

  /** Each of the four says why it is as it is. */
  predicate EvidenceExplained(metrics: seq<Metric>, expected: seq<EvidenceProvenance>, actual: MaterializedCase, why: Rationales) {
    && |metrics| == 10
    && metrics[0].rationale == (if expected == [] then why.noTargets else why.retrieval)
    && metrics[1].rationale == (if expected == [] then why.noTargets else why.citation)
    && metrics[2].rationale == (if actual.markers == [] then why.noMarkers else why.validity)
    && metrics[3].rationale == (if actual.markers == [] then why.noMarkers else why.scope)
  }

  /** What the evidence metrics of a scored case report about its evidence. */
  lemma EvidenceMetricsReport(
    expectedOutcome: ExpectedOutcome, expected: seq<EvidenceProvenance>, actual: MaterializedCase, why: Rationales)
    requires ScoreableInput(expectedOutcome, expected, actual) && !FailedExecution(actual.state)
    ensures var metrics := ScoreMetrics(expectedOutcome, expected, actual, why);
            EvidenceReport(metrics[0], metrics[1], metrics[2], metrics[3], expected, actual) && EvidenceExplained(metrics, expected, actual, why)
  {
    var metrics := ScoreMetrics(expectedOutcome, expected, actual, why);
    CoveragesReport(expected, actual, why);
    MarkersReport(actual, CitationValidity, why.validity, why);
    MarkersReport(actual, CitationScope, why.scope, why);
    EvidenceMetricsLead(expectedOutcome, expected, actual, why);
    assert EvidenceReport(metrics[0], metrics[1], metrics[2], metrics[3], expected, actual);
  }

  lemma EvidenceMetricsLead(
    expectedOutcome: ExpectedOutcome, expected: seq<EvidenceProvenance>, actual: MaterializedCase, why: Rationales)
    requires !FailedExecution(actual.state)
    ensures var metrics := ScoreMetrics(expectedOutcome, expected, actual, why);
            && |metrics| == 10
            && metrics[0] == CoverageMetric(
                 RetrievalCoverage, Covered(expected, Locations(actual.retrieved)), |IdentitySet(expected)|, why.retrieval, why)
            && metrics[1] == CoverageMetric(
                 CitationCoverage, Covered(expected, Locations(actual.cited)), |IdentitySet(expected)|, why.citation, why)
            && metrics[2] == MarkerMetric(CitationValidity, actual.markers, why.validity, why)
            && metrics[3] == MarkerMetric(CitationScope, actual.markers, why.scope, why)
  {
    var targets := |IdentitySet(expected)|;
    FirstFour(
      CoverageMetric(RetrievalCoverage, Covered(expected, Locations(actual.retrieved)), targets, why.retrieval, why),
      CoverageMetric(CitationCoverage, Covered(expected, Locations(actual.cited)), targets, why.citation, why),
      MarkerMetric(CitationValidity, actual.markers, why.validity, why),
      MarkerMetric(CitationScope, actual.markers, why.scope, why),
      ExpectedAbstentionMetric(expectedOutcome, actual.outcome, why),
      ScoredMetric(ExecutionState, 1, 1, why.execution),
      TelemetryMetric(Latency, actual.latency, why.latency, why),
      TelemetryMetric(InputTokens, actual.inputTokens, why.inputTokens, why),
      TelemetryMetric(OutputTokens, actual.outputTokens, why.outputTokens, why),
      Unscored(SemanticSupport, NeedsHumanReview, why.semantic));
  }

  lemma FirstFour(a: Metric, b: Metric, c: Metric, d: Metric, e: Metric, f: Metric, g: Metric, h: Metric, i: Metric, j: Metric)
    ensures var metrics := [a, b, c, d, e, f, g, h, i, j];
            |metrics| == 10 && metrics[0] == a && metrics[1] == b && metrics[2] == c && metrics[3] == d
  {
  }

  lemma CoveragesReport(expected: seq<EvidenceProvenance>, actual: MaterializedCase, why: Rationales)
    requires ValidMaterialized(actual)
    requires forall n | 0 <= n < |expected| :: ValidProvenance(actual.corpusID, actual.snapshotID, expected[n])
    ensures var targets := |IdentitySet(expected)|;
            var retrieved := CoverageMetric(RetrievalCoverage, Covered(expected, Locations(actual.retrieved)), targets, why.retrieval, why);
            var cited := CoverageMetric(CitationCoverage, Covered(expected, Locations(actual.cited)), targets, why.citation, why);
            && ReportsShare(retrieved, expected, Locations(actual.retrieved))
            && ReportsShare(cited, expected, Locations(actual.cited))
            && (expected != [] ==> 0.0 <= cited.value.value <= retrieved.value.value <= 1.0)
  {
    var retrieved, cited := Locations(actual.retrieved), Locations(actual.cited);
    CoverageReportsShare(actual.corpusID, actual.snapshotID, RetrievalCoverage, expected, retrieved, why.retrieval, why);
    CoverageReportsShare(actual.corpusID, actual.snapshotID, CitationCoverage, expected, cited, why.citation, why);
    CitationCoverageWithinRetrieval(expected, actual);
    if expected != [] {
      QuotientsFollowCounts(Covered(expected, cited), Covered(expected, retrieved), |IdentitySet(expected)|);
    }
  }

  lemma MarkersReport(actual: MaterializedCase, name: MetricName, rationale: string, why: Rationales)
    requires ValidMaterialized(actual)
    ensures var metric := MarkerMetric(name, actual.markers, rationale, why);
            && (actual.markers == [] ==> metric.state == NotApplicable)
            && (actual.markers != [] ==>
                  && metric.state == Scored && metric.numerator == |actual.cited| && metric.denominator == |actual.markers|
                  && metric.value == Some(|actual.cited| as real / |actual.markers| as real))
  {
    MarkersShape(actual.answer, |actual.retrieved|);
    ValidMarkersAreCited(actual.markers, actual.retrieved);
  }

  /** A telemetry metric carries the measurement, or is not applicable when there is none. */
  predicate ReportsMeasurement(metric: Metric, name: MetricName, value: Option<int>) {
    && metric.name == name
    && (metric.state == NotApplicable <==> value.None?)
    && (value.Some? ==>
          && metric.state == Scored && metric.numerator == value.value && metric.denominator == 1
          && metric.value == Some(value.value as real))
  }

  /** One point exactly for an abstention that was expected, none for an answer in its place. */
  predicate ReportsAbstention(metric: Metric, expected: ExpectedOutcome, state: ExecutionOutcome) {
    && metric.name == ExpectedAbstention
    && (metric.state == NotApplicable <==> expected == ExpectAnswer)
    && (expected == ExpectAbstain ==> metric.state == Scored && metric.denominator == 1)
    && (metric.value == Some(1.0) <==> expected == ExpectAbstain && state.ExecAbstained?)
    && (metric.value == Some(0.0) <==> expected == ExpectAbstain && !state.ExecAbstained?)
    && (metric.state == Scored ==> metric.value == Some(metric.numerator as real))
  }

  /** The six metrics that do not look at evidence. */
  predicate OutcomeReport(
    abstention: Metric, execution: Metric, latency: Metric, inputTokens: Metric, outputTokens: Metric, semantic: Metric,
    expected: ExpectedOutcome, actual: MaterializedCase)
  {
    && ReportsAbstention(abstention, expected, actual.state)
    && execution.name == ExecutionState && execution.state == Scored && execution.value == Some(1.0)
    && execution.numerator == execution.denominator == 1
    && ReportsMeasurement(latency, Latency, actual.latency)
    && ReportsMeasurement(inputTokens, InputTokens, actual.inputTokens)
    && ReportsMeasurement(outputTokens, OutputTokens, actual.outputTokens)
    && semantic.name == SemanticSupport && semantic.state == NeedsHumanReview && semantic.value.None?
  }

  /** Each metric says why it is as it is. */
  predicate OutcomeExplained(metrics: seq<Metric>, expected: ExpectedOutcome, actual: MaterializedCase, why: Rationales) {
    && |metrics| == 10
    && metrics[4].rationale ==
         (if expected == ExpectAnswer then why.noAbstention else if actual.state.ExecAbstained? then why.abstained else why.answered)
    && metrics[5].rationale == why.execution
    && metrics[6].rationale == (if actual.latency.Some? then why.latency else why.noMeasurement)
    && metrics[7].rationale == (if actual.inputTokens.Some? then why.inputTokens else why.noMeasurement)
    && metrics[8].rationale == (if actual.outputTokens.Some? then why.outputTokens else why.noMeasurement)
    && metrics[9].rationale == why.semantic
  }

  /** What the other six metrics of a scored case report about its outcome. */
  lemma OutcomeMetricsReport(
    expectedOutcome: ExpectedOutcome, expected: seq<EvidenceProvenance>, actual: MaterializedCase, why: Rationales)
    requires ScoreableInput(expectedOutcome, expected, actual) && !FailedExecution(actual.state)
    ensures var metrics := ScoreMetrics(expectedOutcome, expected, actual, why);
            && OutcomeExplained(metrics, expectedOutcome, actual, why)
            && OutcomeReport(metrics[4], metrics[5], metrics[6], metrics[7], metrics[8], metrics[9], expectedOutcome, actual)
  {
    OutcomeMetricsTrail(expectedOutcome, expected, actual, why);
    MeasurementReports(Latency, actual.latency, why.latency, why);
    MeasurementReports(InputTokens, actual.inputTokens, why.inputTokens, why);
    MeasurementReports(OutputTokens, actual.outputTokens, why.outputTokens, why);
  }

  lemma MeasurementReports(name: MetricName, value: Option<int>, rationale: string, why: Rationales)
    ensures ReportsMeasurement(TelemetryMetric(name, value, rationale, why), name, value)
  {
  }

  lemma OutcomeMetricsTrail(
    expectedOutcome: ExpectedOutcome, expected: seq<EvidenceProvenance>, actual: MaterializedCase, why: Rationales)
    requires !FailedExecution(actual.state)
    ensures var metrics := ScoreMetrics(expectedOutcome, expected, actual, why);
            && |metrics| == 10
            && metrics[4] == ExpectedAbstentionMetric(expectedOutcome, actual.outcome, why)
            && metrics[5] == ScoredMetric(ExecutionState, 1, 1, why.execution)
            && metrics[6] == TelemetryMetric(Latency, actual.latency, why.latency, why)
            && metrics[7] == TelemetryMetric(InputTokens, actual.inputTokens, why.inputTokens, why)
            && metrics[8] == TelemetryMetric(OutputTokens, actual.outputTokens, why.outputTokens, why)
            && metrics[9] == Unscored(SemanticSupport, NeedsHumanReview, why.semantic)
  {
    var targets := |IdentitySet(expected)|;
    LastSix(
      CoverageMetric(RetrievalCoverage, Covered(expected, Locations(actual.retrieved)), targets, why.retrieval, why),
      CoverageMetric(CitationCoverage, Covered(expected, Locations(actual.cited)), targets, why.citation, why),
      MarkerMetric(CitationValidity, actual.markers, why.validity, why),
      MarkerMetric(CitationScope, actual.markers, why.scope, why),
      ExpectedAbstentionMetric(expectedOutcome, actual.outcome, why),
      ScoredMetric(ExecutionState, 1, 1, why.execution),
      TelemetryMetric(Latency, actual.latency, why.latency, why),
      TelemetryMetric(InputTokens, actual.inputTokens, why.inputTokens, why),
      TelemetryMetric(OutputTokens, actual.outputTokens, why.outputTokens, why),
      Unscored(SemanticSupport, NeedsHumanReview, why.semantic));
  }

  lemma LastSix(a: Metric, b: Metric, c: Metric, d: Metric, e: Metric, f: Metric, g: Metric, h: Metric, i: Metric, j: Metric)
    ensures var metrics := [a, b, c, d, e, f, g, h, i, j];
            && |metrics| == 10 && metrics[4] == e && metrics[5] == f && metrics[6] == g
            && metrics[7] == h && metrics[8] == i && metrics[9] == j
  {
  }

  /** A failed or cancelled case gets ten metrics without a score, whatever it retrieved or measured. */
  lemma FailuresAreNotScored(
    expectedOutcome: ExpectedOutcome, expected: seq<EvidenceProvenance>, actual: MaterializedCase, why: Rationales)
    requires FailedExecution(actual.state)
    ensures RequiredMetricSet(ScoreMetrics(expectedOutcome, expected, actual, why))
    ensures forall m | m in ScoreMetrics(expectedOutcome, expected, actual, why) ::
              m.state == NotScored && m.value.None? && m.numerator == m.denominator == 0
  {
    FailureRationaleIsNotBlank(actual.state);
    UnscoredSetIsComplete(FailureRationale(actual.state));
    UnscoredSetWithholds(FailureRationale(actual.state));
  }

  lemma UnscoredSetWithholds(rationale: string)
    ensures forall m | m in UnscoredSet(rationale) :: m.state == NotScored && m.value.None? && m.numerator == m.denominator == 0
  {
    forall m | m in UnscoredSet(rationale) ensures m == Unscored(m.name, NotScored, rationale) {
    }
  }

  /** Ten storable metrics that carry the ten names in the scorer's order. */
  predicate TenInOrder(metrics: seq<Metric>) {
    && |metrics| == 10
    && metrics[0].name == RetrievalCoverage && metrics[1].name == CitationCoverage
    && metrics[2].name == CitationValidity && metrics[3].name == CitationScope
    && metrics[4].name == ExpectedAbstention && metrics[5].name == ExecutionState
    && metrics[6].name == Latency && metrics[7].name == InputTokens
    && metrics[8].name == OutputTokens && metrics[9].name == SemanticSupport
    && ValidMetric(metrics[0]) && ValidMetric(metrics[1]) && ValidMetric(metrics[2]) && ValidMetric(metrics[3])
    && ValidMetric(metrics[4]) && ValidMetric(metrics[5]) && ValidMetric(metrics[6]) && ValidMetric(metrics[7])
    && ValidMetric(metrics[8]) && ValidMetric(metrics[9])
  }

  lemma TenInOrderSuffice(metrics: seq<Metric>)
    requires TenInOrder(metrics)
    ensures RequiredMetricSet(metrics)
    ensures forall m | m in metrics :: ValidMetric(m)
  {
    var names := set m | m in metrics :: m.name;
    forall n | 0 <= n < 10 ensures metrics[n].name in names && metrics[n].name in TerminalMetricNames {
      assert metrics[n] in metrics;
    }
    forall name | name in TerminalMetricNames ensures name in names {}
  }

  lemma UnscoredIsValid(name: MetricName, rationale: string)
    requires name != OtherMetric("") && !Blank(rationale)
    ensures ValidMetric(Unscored(name, NotScored, rationale))
  {
  }

  lemma UnscoredSetIsComplete(rationale: string)
    requires !Blank(rationale)
    ensures RequiredMetricSet(UnscoredSet(rationale))
    ensures forall m | m in UnscoredSet(rationale) :: ValidMetric(m)
  {
    forall name | name in TerminalMetricNames ensures ValidMetric(Unscored(name, NotScored, rationale)) { UnscoredIsValid(name, rationale); }
    TenListed(
      Unscored(RetrievalCoverage, NotScored, rationale), Unscored(CitationCoverage, NotScored, rationale),
      Unscored(CitationValidity, NotScored, rationale), Unscored(CitationScope, NotScored, rationale),
      Unscored(ExpectedAbstention, NotScored, rationale), Unscored(ExecutionState, NotScored, rationale),
      Unscored(Latency, NotScored, rationale), Unscored(InputTokens, NotScored, rationale),
      Unscored(OutputTokens, NotScored, rationale), Unscored(SemanticSupport, NotScored, rationale));
    TenInOrderSuffice(UnscoredSet(rationale));
  }

  /** A score carries exactly the ten components the run ledger requires, each one storable. */
  lemma ScoresAreStorable(expectedOutcome: ExpectedOutcome, expected: seq<EvidenceProvenance>, actual: MaterializedCase)
    requires ScoreableInput(expectedOutcome, expected, actual)
    ensures RequiredMetricSet(ScoreMetrics(expectedOutcome, expected, actual, V1_RATIONALES))
    ensures forall m | m in ScoreMetrics(expectedOutcome, expected, actual, V1_RATIONALES) :: ValidMetric(m)
  {
    V1RationalesAreNotBlank();
    ScoresAreStorableWith(expectedOutcome, expected, actual, V1_RATIONALES);
  }

  lemma CoverageMetricIsValid(name: MetricName, numerator: nat, denominator: nat, rationale: string, why: Rationales)
    requires name != OtherMetric("") && !Blank(rationale) && NoneBlank(why)
    ensures ValidMetric(CoverageMetric(name, numerator, denominator, rationale, why))
    ensures CoverageMetric(name, numerator, denominator, rationale, why).name == name
  {
  }

  lemma MarkerMetricIsValid(name: MetricName, markers: seq<CitationMarker>, rationale: string, why: Rationales)
    requires name != OtherMetric("") && !Blank(rationale) && NoneBlank(why)
    ensures ValidMetric(MarkerMetric(name, markers, rationale, why))
    ensures MarkerMetric(name, markers, rationale, why).name == name
  {
  }

  lemma TelemetryMetricIsValid(name: MetricName, value: Option<int>, rationale: string, why: Rationales)
    requires name != OtherMetric("") && !Blank(rationale) && NoneBlank(why) && ValidMeasurement(value)
    ensures ValidMetric(TelemetryMetric(name, value, rationale, why))
    ensures TelemetryMetric(name, value, rationale, why).name == name
  {
  }

  lemma AbstentionMetricIsValid(expected: ExpectedOutcome, actual: AgentOutcome, why: Rationales)
    requires NoneBlank(why)
    ensures ValidMetric(ExpectedAbstentionMetric(expected, actual, why))
    ensures ExpectedAbstentionMetric(expected, actual, why).name == ExpectedAbstention
  {
  }

  lemma CompletedScoreInOrder(
    expectedOutcome: ExpectedOutcome, expected: seq<EvidenceProvenance>, actual: MaterializedCase, why: Rationales)
    requires NoneBlank(why) && !FailedExecution(actual.state)
    requires ValidMeasurement(actual.latency) && ValidMeasurement(actual.inputTokens) && ValidMeasurement(actual.outputTokens)
    ensures TenInOrder(ScoreMetrics(expectedOutcome, expected, actual, why))
  {
    var targets := |IdentitySet(expected)|;
    var retrieved, cited := Covered(expected, Locations(actual.retrieved)), Covered(expected, Locations(actual.cited));
    CoverageMetricIsValid(RetrievalCoverage, retrieved, targets, why.retrieval, why);
    CoverageMetricIsValid(CitationCoverage, cited, targets, why.citation, why);
    MarkerMetricIsValid(CitationValidity, actual.markers, why.validity, why);
    MarkerMetricIsValid(CitationScope, actual.markers, why.scope, why);
    AbstentionMetricIsValid(expectedOutcome, actual.outcome, why);
    TelemetryMetricIsValid(Latency, actual.latency, why.latency, why);
    TelemetryMetricIsValid(InputTokens, actual.inputTokens, why.inputTokens, why);
    TelemetryMetricIsValid(OutputTokens, actual.outputTokens, why.outputTokens, why);
    TenListed(
      CoverageMetric(RetrievalCoverage, retrieved, targets, why.retrieval, why),
      CoverageMetric(CitationCoverage, cited, targets, why.citation, why),
      MarkerMetric(CitationValidity, actual.markers, why.validity, why),
      MarkerMetric(CitationScope, actual.markers, why.scope, why),
      ExpectedAbstentionMetric(expectedOutcome, actual.outcome, why),
      ScoredMetric(ExecutionState, 1, 1, why.execution),
      TelemetryMetric(Latency, actual.latency, why.latency, why),
      TelemetryMetric(InputTokens, actual.inputTokens, why.inputTokens, why),
      TelemetryMetric(OutputTokens, actual.outputTokens, why.outputTokens, why),
      Unscored(SemanticSupport, NeedsHumanReview, why.semantic));
  }

  lemma TenListed(a: Metric, b: Metric, c: Metric, d: Metric, e: Metric, f: Metric, g: Metric, h: Metric, i: Metric, j: Metric)
    requires a.name == RetrievalCoverage && b.name == CitationCoverage && c.name == CitationValidity && d.name == CitationScope
    requires e.name == ExpectedAbstention && f.name == ExecutionState && g.name == Latency && h.name == InputTokens
    requires i.name == OutputTokens && j.name == SemanticSupport
    requires ValidMetric(a) && ValidMetric(b) && ValidMetric(c) && ValidMetric(d) && ValidMetric(e)
    requires ValidMetric(f) && ValidMetric(g) && ValidMetric(h) && ValidMetric(i) && ValidMetric(j)
    ensures TenInOrder([a, b, c, d, e, f, g, h, i, j])
  {
  }

  lemma FailureRationaleIsNotBlank(state: ExecutionOutcome)
    requires FailedExecution(state)
    ensures !Blank(FailureRationale(state))
  {
    assert !IsSpace(FailureRationale(state)[0]);
  }

  lemma ScoresAreStorableWith(
    expectedOutcome: ExpectedOutcome, expected: seq<EvidenceProvenance>, actual: MaterializedCase, why: Rationales)
    requires NoneBlank(why)
    requires ValidMeasurement(actual.latency) && ValidMeasurement(actual.inputTokens) && ValidMeasurement(actual.outputTokens)
    ensures RequiredMetricSet(ScoreMetrics(expectedOutcome, expected, actual, why))
    ensures forall m | m in ScoreMetrics(expectedOutcome, expected, actual, why) :: ValidMetric(m)
  {
    if FailedExecution(actual.state) {
      FailureRationaleIsNotBlank(actual.state);
      UnscoredSetIsComplete(FailureRationale(actual.state));
    } else {
      CompletedScoreInOrder(expectedOutcome, expected, actual, why);
      TenInOrderSuffice(ScoreMetrics(expectedOutcome, expected, actual, why));
    }
  }
}
