/** Reciprocal language pairs of dataset cases, and the starter selections drawn from them. */
module Pairing {
  import opened Text
  import opened Evaluation

  datatype Language = English | Portuguese | OtherLanguage(text: string)

  datatype AssetLanguage = AssetEnglish | AssetPortugueseBrazil | OtherAssetLanguage(text: string)

  /** sound stands for the checks of the revision's own fields. */
  datatype Revision = Revision(id: Uuid, corpusID: Uuid, languages: seq<Language>, sound: bool)

  /** The empty outcome is OtherOutcome(""). */
  datatype Case = Case(
    id: Uuid, revisionID: Uuid, corpusID: Uuid, position: int, externalID: string, reciprocalID: string,
    language: Language, assetLanguage: AssetLanguage, evidenceLanguage: AssetLanguage,
    question: string, referenceAnswer: string, category: string,
    outcome: ExpectedOutcome, reasonCode: string, checksum: string)

  datatype Selection = Selection(
    id: Uuid, revisionID: Uuid, corpusID: Uuid, caseID: Uuid, rank: int, language: Language, checksum: string, reviewEligible: bool)

  // ---------------------------------------------------------------- One case

  predicate IdentifierChar(c: char) {
    'a' <= c <= 'z' || IsDigit(c)
  }

  /** The pattern [a-z0-9][a-z0-9-]{0,127}. */
  predicate SafeIdentifier(s: string) {
    1 <= |s| <= 128 && IdentifierChar(s[0]) && forall i | 0 <= i < |s| :: IdentifierChar(s[i]) || s[i] == '-'
  }

  predicate ValidLanguage(language: Language) {
    language.English? || language.Portuguese?
  }

  predicate ValidAssetLanguage(language: AssetLanguage) {
    language.AssetEnglish? || language.AssetPortugueseBrazil?
  }

  predicate MatchingAssetLanguage(language: Language, asset: AssetLanguage) {
    (language.English? && asset.AssetEnglish?) || (language.Portuguese? && asset.AssetPortugueseBrazil?)
  }

  /** An omitted outcome means that an answer is expected. */
  function Defaulted(c: Case): Case {
    if c.outcome == OtherOutcome("") then c.(outcome := ExpectAnswer) else c
  }

  /** Every field check before the outcome is looked at. */
  predicate ValidFields(revision: Revision, c: Case) {
    && revision.sound && c.id != NIL && c.revisionID == revision.id && c.corpusID == revision.corpusID
    && c.position >= 1 && SafeIdentifier(c.externalID) && SafeIdentifier(c.reciprocalID) && c.externalID != c.reciprocalID
    && !Blank(c.question) && !Blank(c.referenceAnswer) && !Blank(c.category)
    && ValidLanguage(c.language) && ValidAssetLanguage(c.assetLanguage) && ValidAssetLanguage(c.evidenceLanguage)
    && MatchingAssetLanguage(c.language, c.assetLanguage)
    && IsSha256(c.checksum) && c.language in revision.languages
  }

  predicate ValidOutcome(c: Case) {
    match c.outcome
    case ExpectAnswer => c.reasonCode == ""
    case ExpectAbstain => SafeIdentifier(c.reasonCode)
    case OtherOutcome(_) => false
  }

  predicate ValidCase(revision: Revision, c: Case) {
    ValidFields(revision, c) && ValidOutcome(Defaulted(c))
  }

  /** A valid case expects an answer without a reason code, or an abstention with one; an outcome that was given stands. */
  lemma DefaultsDecideOutcomes(revision: Revision, c: Case)
    requires ValidCase(revision, c)
    ensures var d := Defaulted(c);
            && d == c.(outcome := d.outcome) && (c.outcome != OtherOutcome("") ==> d == c)
            && (d.outcome == ExpectAnswer <==> c.reasonCode == "") && (d.outcome == ExpectAbstain <==> c.reasonCode != "")
            && (c.outcome == OtherOutcome("") ==> d.outcome == ExpectAnswer)
  {
  }

  // ---------------------------------------------------------------- Reciprocal pairs

  ghost predicate DistinctCases(cases: seq<Case>) {
    forall i, j | 0 <= i < j < |cases| :: cases[i].externalID != cases[j].externalID && cases[i].position != cases[j].position
  }

  predicate Reciprocal(c: Case, d: Case) {
    d.externalID == c.reciprocalID && d.reciprocalID == c.externalID && d.language != c.language
  }

  ghost predicate HasPartner(cases: seq<Case>, i: nat)
    requires i < |cases|
  {
    exists j :: 0 <= j < |cases| && Reciprocal(cases[i], cases[j])
  }

  /** Distinct cases, each with a reciprocal case in the other language. */
  ghost predicate PairedCases(revision: Revision, cases: seq<Case>) {
    && cases != [] && DistinctCases(cases)
    && (forall i | 0 <= i < |cases| :: ValidCase(revision, cases[i]))
    && (forall i | 0 <= i < |cases| :: HasPartner(cases, i))
  }

  function DefaultedAll(cases: seq<Case>): seq<Case> {
    seq(|cases|, i requires 0 <= i < |cases| => Defaulted(cases[i]))
  }

  /** ValidateAgainst, which writes the default outcome into the case. */
  method ValidateCase(revision: Revision, cases: array<Case>, index: nat) returns (ok: bool)
    requires index < cases.Length
    modifies cases
    ensures ok <==> ValidCase(revision, old(cases[index]))
    ensures ok ==> cases[index] == Defaulted(old(cases[index]))
    ensures cases[index] == old(cases[index]) || cases[index] == Defaulted(old(cases[index]))
    ensures forall i | 0 <= i < cases.Length && i != index :: cases[i] == old(cases[i])
  {
    if !ValidFields(revision, cases[index]) {
      return false;
    }
    if cases[index].outcome == OtherOutcome("") {
      cases[index] := cases[index].(outcome := ExpectAnswer);
    }
    ok := ValidOutcome(cases[index]);
  }

  /** Later cases replace earlier ones under the same external identifier. */
  function ByExternalID(cases: seq<Case>): map<string, Case> {
    if cases == [] then map[] else ByExternalID(cases[..|cases| - 1])[cases[|cases| - 1].externalID := cases[|cases| - 1]]
  }

  lemma {:induction false} ExternalLookup(cases: seq<Case>)
    requires DistinctCases(cases)
    ensures forall i | 0 <= i < |cases| :: cases[i].externalID in ByExternalID(cases) && ByExternalID(cases)[cases[i].externalID] == cases[i]
    ensures forall id | id in ByExternalID(cases) :: exists i :: 0 <= i < |cases| && cases[i].externalID == id
  {
    if cases != [] {
      var earlier := cases[..|cases| - 1];
      ExternalLookup(earlier);
      forall id | id in ByExternalID(earlier) ensures exists i :: 0 <= i < |cases| && cases[i].externalID == id {
        var i :| 0 <= i < |earlier| && earlier[i].externalID == id;
        assert cases[i].externalID == id;
      }
    }
  }

  lemma PartnerLookup(cases: seq<Case>, i: nat)
    requires DistinctCases(cases) && i < |cases|
    ensures HasPartner(cases, i) <==>
              && cases[i].reciprocalID in ByExternalID(cases)
              && Reciprocal(cases[i], ByExternalID(cases)[cases[i].reciprocalID])
  {
    ExternalLookup(cases);
    if cases[i].reciprocalID in ByExternalID(cases) {
      var j :| 0 <= j < |cases| && cases[j].externalID == cases[i].reciprocalID;
      assert ByExternalID(cases)[cases[j].externalID] == cases[j];
    }
  }

  lemma DefaultKeepsValidity(revision: Revision, c: Case)
    ensures ValidCase(revision, Defaulted(c)) <==> ValidCase(revision, c)
  {
  }

  lemma DefaultsKeepDistinct(cases: seq<Case>)
    ensures DistinctCases(DefaultedAll(cases)) <==> DistinctCases(cases)
  {
    var all := DefaultedAll(cases);
    if DistinctCases(all) {
      forall i, j | 0 <= i < j < |cases| ensures cases[i].externalID != cases[j].externalID && cases[i].position != cases[j].position {
        assert all[i].externalID != all[j].externalID && all[i].position != all[j].position;
      }
    }
  }

  lemma DefaultsKeepPartner(cases: seq<Case>, i: nat)
    requires i < |cases|
    ensures HasPartner(DefaultedAll(cases), i) <==> HasPartner(cases, i)
  {
    var all := DefaultedAll(cases);
    if HasPartner(cases, i) {
      var j :| 0 <= j < |cases| && Reciprocal(cases[i], cases[j]);
      assert Reciprocal(all[i], all[j]);
    }
    if HasPartner(all, i) {
      var j :| 0 <= j < |all| && Reciprocal(all[i], all[j]);
      assert Reciprocal(cases[i], cases[j]);
    }
  }

  /** The outcome default changes neither identity nor language. */
  lemma DefaultsKeepPairs(revision: Revision, cases: seq<Case>)
    ensures PairedCases(revision, DefaultedAll(cases)) <==> PairedCases(revision, cases)
  {
    DefaultsKeepDistinct(cases);
    forall i | 0 <= i < |cases|
      ensures ValidCase(revision, DefaultedAll(cases)[i]) <==> ValidCase(revision, cases[i])
      ensures HasPartner(DefaultedAll(cases), i) <==> HasPartner(cases, i)
    {
      DefaultKeepsValidity(revision, cases[i]);
      DefaultsKeepPartner(cases, i);
    }
  }

  ghost function ExternalIDs(cases: seq<Case>): set<string> {
    set c | c in cases :: c.externalID
  }

  ghost function Positions(cases: seq<Case>): set<int> {
    set c | c in cases :: c.position
  }

  lemma DistinctOneMore(cases: seq<Case>, n: nat)
    requires n < |cases|
    ensures DistinctCases(cases[..n + 1]) <==>
              DistinctCases(cases[..n]) && cases[n].externalID !in ExternalIDs(cases[..n]) && cases[n].position !in Positions(cases[..n])
    ensures ExternalIDs(cases[..n + 1]) == ExternalIDs(cases[..n]) + {cases[n].externalID}
    ensures Positions(cases[..n + 1]) == Positions(cases[..n]) + {cases[n].position}
  {
    var longer := cases[..n + 1];
    assert longer == cases[..n] + [cases[n]];
    if DistinctCases(longer) {
      forall c | c in cases[..n] ensures c.externalID != cases[n].externalID && c.position != cases[n].position {
        var i :| 0 <= i < n && cases[..n][i] == c;
        assert longer[i] == c && longer[n] == cases[n];
      }
      forall i, j | 0 <= i < j < n
        ensures cases[..n][i].externalID != cases[..n][j].externalID && cases[..n][i].position != cases[..n][j].position
      {
        assert longer[i].externalID != longer[j].externalID;
      }
    }
  }

  /** What the first pass establishes of the first n cases. */
  ghost predicate Indexed(revision: Revision, cases: seq<Case>, n: nat)
    requires n <= |cases|
  {
    DistinctCases(cases[..n]) && forall i | 0 <= i < n :: ValidCase(revision, cases[i])
  }

  lemma IndexedOneMore(revision: Revision, cases: seq<Case>, n: nat)
    requires n < |cases| && Indexed(revision, cases, n)
    ensures Indexed(revision, cases, n + 1) <==>
              && ValidCase(revision, cases[n]) && cases[n].externalID !in ExternalIDs(cases[..n])
              && cases[n].position !in Positions(cases[..n])
    ensures !Indexed(revision, cases, n + 1) ==> !Indexed(revision, cases, |cases|)
  {
    DistinctOneMore(cases, n);
    if Indexed(revision, cases, |cases|) {
      assert cases[..|cases|] == cases;
    }
  }

  /** What the first pass has collected after n cases. */
  ghost predicate Collected(
    cases: seq<Case>, n: nat, byExternalID: map<string, Case>, externalIDs: set<string>, positions: set<int>)
    requires n <= |cases|
  {
    && byExternalID == ByExternalID(DefaultedAll(cases[..n]))
    && externalIDs == ExternalIDs(cases[..n]) && positions == Positions(cases[..n])
  }

  /** One more case: what the pass asks of it, and what it then collects. */
  lemma CollectOne(
    revision: Revision, cases: seq<Case>, n: nat, byExternalID: map<string, Case>, externalIDs: set<string>, positions: set<int>)
    requires n < |cases| && Indexed(revision, cases, n) && Collected(cases, n, byExternalID, externalIDs, positions)
    ensures var c := cases[n];
            && (Indexed(revision, cases, n + 1) <==>
                  ValidCase(revision, c) && c.externalID !in externalIDs && c.position !in positions)
            && Collected(cases, n + 1, byExternalID[c.externalID := Defaulted(c)], externalIDs + {c.externalID}, positions + {c.position})
    ensures !Indexed(revision, cases, n + 1) ==> !Indexed(revision, cases, |cases|)
  {
    IndexedOneMore(revision, cases, n);
    DistinctOneMore(cases, n);
    DefaultedOneMore(cases, n);
  }

  /** The first pass: every case valid, external identifiers and positions new. */
  method IndexCases(revision: Revision, cases: array<Case>) returns (ok: bool, byExternalID: map<string, Case>)
    modifies cases
    ensures ok <==> Indexed(revision, old(cases[..]), |old(cases[..])|)
    ensures ok ==> cases[..] == DefaultedAll(old(cases[..])) && byExternalID == ByExternalID(cases[..])
  {
    ghost var input := cases[..];
    byExternalID := map[];
    var externalIDs: set<string>, positions: set<int> := {}, {};
    for index := 0 to cases.Length
      invariant Indexed(revision, input, index)
      invariant forall i | 0 <= i < index :: cases[i] == Defaulted(input[i])
      invariant forall i | index <= i < cases.Length :: cases[i] == input[i]
      invariant Collected(input, index, byExternalID, externalIDs, positions)
    {
      CollectOne(revision, input, index, byExternalID, externalIDs, positions);
      var valid := ValidateCase(revision, cases, index);
      if !valid {
        return false, map[];
      }
      var c := cases[index];
      if c.externalID in externalIDs || c.position in positions {
        return false, map[];
      }
      byExternalID := byExternalID[c.externalID := c];
      externalIDs, positions := externalIDs + {c.externalID}, positions + {c.position};
    }
    assert input[..cases.Length] == input && cases[..] == DefaultedAll(input);
    ok := true;
  }

  /** The second pass: every case's reciprocal points back from the other language. */
  method CheckReciprocals(cases: seq<Case>) returns (ok: bool)
    requires DistinctCases(cases)
    ensures ok <==> forall i | 0 <= i < |cases| :: HasPartner(cases, i)
  {
    var byExternalID := ByExternalID(cases);
    for index := 0 to |cases|
      invariant forall i: nat | i < index :: HasPartner(cases, i)
    {
      PartnerLookup(cases, index);
      var c := cases[index];
      if c.reciprocalID !in byExternalID || !Reciprocal(c, byExternalID[c.reciprocalID]) {
        return false;
      }
    }
    ok := true;
  }

  method ValidatePairedCases(revision: Revision, cases: array<Case>) returns (ok: bool)
    modifies cases
    ensures ok <==> PairedCases(revision, old(cases[..]))
    ensures ok ==> cases[..] == DefaultedAll(old(cases[..])) && PairedCases(revision, cases[..])
  {
    ghost var input := cases[..];
    if cases.Length == 0 {
      return false;
    }
    if !revision.sound {
      assert !ValidCase(revision, input[0]);
      return false;
    }
    assert input[..|input|] == input;
    var indexed, _ := IndexCases(revision, cases);
    if !indexed {
      return false;
    }
    DefaultsKeepPairs(revision, input);
    DefaultsKeepDistinct(input);
    ok := CheckReciprocals(cases[..]);
    PairsMeanPartners(revision, input);
  }

  lemma PairsMeanPartners(revision: Revision, cases: seq<Case>)
    requires cases != [] && DistinctCases(cases) && forall i | 0 <= i < |cases| :: ValidCase(revision, cases[i])
    ensures PairedCases(revision, cases) <==> forall i | 0 <= i < |cases| :: HasPartner(DefaultedAll(cases), i)
  {
    var all := DefaultedAll(cases);
    DefaultsKeepPairs(revision, cases);
    DefaultsKeepDistinct(cases);
    forall i | 0 <= i < |all| ensures ValidCase(revision, all[i]) { assert ValidCase(revision, cases[i]); }
  }

  lemma DefaultedOneMore(input: seq<Case>, n: nat)
    requires n < |input|
    ensures DefaultedAll(input[..n + 1]) == DefaultedAll(input[..n]) + [Defaulted(input[n])]
    ensures ByExternalID(DefaultedAll(input[..n + 1])) == ByExternalID(DefaultedAll(input[..n]))[input[n].externalID := Defaulted(input[n])]
  {
    var longer := DefaultedAll(input[..n + 1]);
    assert longer == DefaultedAll(input[..n]) + [Defaulted(input[n])];
    assert longer[..|longer| - 1] == DefaultedAll(input[..n]);
  }

  // ---------------------------------------------------------------- Accepted cases form an involution

  ghost function PartnerOf(cases: seq<Case>, i: nat): (j: nat)
    requires i < |cases| && HasPartner(cases, i)
    ensures j < |cases| && Reciprocal(cases[i], cases[j])
  {
    var j :| 0 <= j < |cases| && Reciprocal(cases[i], cases[j]);
    j
  }

  /** Taking the partner twice leads back, never to the case itself, and always to the other language. */
  lemma PartnersFormInvolution(revision: Revision, cases: seq<Case>, i: nat)
    requires PairedCases(revision, cases) && i < |cases|
    ensures HasPartner(cases, i)
    ensures var j := PartnerOf(cases, i);
            && j != i && cases[j].language != cases[i].language
            && HasPartner(cases, j) && PartnerOf(cases, j) == i
  {
    assert HasPartner(cases, i);
    var j := PartnerOf(cases, i);
    assert Reciprocal(cases[j], cases[i]);
    var k := PartnerOf(cases, j);
    assert cases[k].externalID == cases[i].externalID;
  }

  ghost function InLanguage(cases: seq<Case>, language: Language): set<int> {
    set i | 0 <= i < |cases| && cases[i].language == language
  }

  /** A set mapped one-to-one into another is no larger. */
  lemma {:induction false} InjectionSize<K, V>(f: map<K, V>, target: set<V>)
    requires forall i | i in f :: f[i] in target
    requires forall i, j | i in f && j in f && f[i] == f[j] :: i == j
    ensures |f| <= |target|
    decreases |f|
  {
    if f != map[] {
      var i :| i in f;
      InjectionSize(f - {i}, target - {f[i]});
    }
  }

  ghost function Partners(cases: seq<Case>, language: Language): map<int, int>
    requires forall i: nat | i < |cases| :: HasPartner(cases, i)
  {
    map i | i in InLanguage(cases, language) :: PartnerOf(cases, i)
  }

  /** The partner is in the other language and leads back. */
  ghost predicate Crosses(cases: seq<Case>, i: int, other: Language) {
    && 0 <= i < |cases| && HasPartner(cases, i)
    && var j := PartnerOf(cases, i);
       cases[j].language == other && HasPartner(cases, j) && PartnerOf(cases, j) == i
  }

  lemma PartnerCrosses(revision: Revision, cases: seq<Case>, i: nat, other: Language)
    requires PairedCases(revision, cases) && i < |cases| && other != cases[i].language && ValidLanguage(other)
    ensures Crosses(cases, i, other)
  {
    PartnersFormInvolution(revision, cases, i);
    assert ValidCase(revision, cases[i]) && ValidCase(revision, cases[PartnerOf(cases, i)]);
  }

  lemma OneSideFits(revision: Revision, cases: seq<Case>, language: Language, other: Language)
    requires PairedCases(revision, cases) && ((language.English? && other.Portuguese?) || (language.Portuguese? && other.English?))
    ensures |InLanguage(cases, language)| <= |InLanguage(cases, other)|
  {
    forall i: nat | i < |cases| ensures HasPartner(cases, i) { PartnersFormInvolution(revision, cases, i); }
    forall i | i in InLanguage(cases, language) ensures Crosses(cases, i, other) { PartnerCrosses(revision, cases, i, other); }
    CrossingFits(cases, language, other);
  }

  lemma CrossingFits(cases: seq<Case>, language: Language, other: Language)
    requires forall i: nat | i < |cases| :: HasPartner(cases, i)
    requires forall i | i in InLanguage(cases, language) :: Crosses(cases, i, other)
    ensures |InLanguage(cases, language)| <= |InLanguage(cases, other)|
  {
    var f := Partners(cases, language);
    forall i, j | i in f && j in f && f[i] == f[j] ensures i == j {
      assert Crosses(cases, i, other) && Crosses(cases, j, other);
    }
    forall i | i in f ensures f[i] in InLanguage(cases, other) { assert Crosses(cases, i, other); }
    InjectionSize(f, InLanguage(cases, other));
    assert f.Keys == InLanguage(cases, language) && |f| == |f.Keys|;
  }

  predicate Below(i: int, n: nat) {
    0 <= i < n
  }

  ghost function Indices(n: nat): set<int> {
    set i | 0 <= i < n && Below(i, n)
  }

  lemma {:induction false} IndicesSize(n: nat)
    ensures |Indices(n)| == n
  {
    if n > 0 {
      IndicesSize(n - 1);
      assert Indices(n) == Indices(n - 1) + {n - 1} by {
        forall i ensures i in Indices(n) <==> i in Indices(n - 1) + {n - 1} {
          assert Below(i, n) <==> Below(i, n - 1) || i == n - 1;
        }
      }
    }
  }

  /** Accepted cases are even in number, with exactly half in each language. */
  lemma HalfInEachLanguage(revision: Revision, cases: seq<Case>)
    requires PairedCases(revision, cases)
    ensures |InLanguage(cases, English)| == |InLanguage(cases, Portuguese)|
    ensures |cases| == 2 * |InLanguage(cases, English)|
  {
    OneSideFits(revision, cases, English, Portuguese);
    OneSideFits(revision, cases, Portuguese, English);
    forall i ensures i in Indices(|cases|) <==> i in InLanguage(cases, English) + InLanguage(cases, Portuguese) {
      assert i in Indices(|cases|) <==> Below(i, |cases|);
      if 0 <= i < |cases| {
        assert ValidCase(revision, cases[i]);
      }
    }
    assert Indices(|cases|) == InLanguage(cases, English) + InLanguage(cases, Portuguese);
    assert InLanguage(cases, English) !! InLanguage(cases, Portuguese);
    IndicesSize(|cases|);
  }

  // ---------------------------------------------------------------- Outcomes of pairs

  function ZeroCase(): Case {
    Case(NIL, NIL, NIL, 0, "", "", OtherLanguage(""), OtherAssetLanguage(""), OtherAssetLanguage(""), "", "", "", OtherOutcome(""), "", "")
  }

  /** A map lookup that gives the zero case for a missing key. */
  function LookUp(byExternalID: map<string, Case>, externalID: string): Case {
    if externalID in byExternalID then byExternalID[externalID] else ZeroCase()
  }

  predicate SameOutcome(c: Case, d: Case) {
    d.outcome == c.outcome && d.reasonCode == c.reasonCode
  }

  method ValidatePairedOutcomes(cases: seq<Case>) returns (ok: bool)
    ensures ok <==> forall i | 0 <= i < |cases| :: SameOutcome(cases[i], LookUp(ByExternalID(cases), cases[i].reciprocalID))
  {
    var byExternalID := map[];
    for index := 0 to |cases|
      invariant byExternalID == ByExternalID(cases[..index])
    {
      assert cases[..index + 1][..index] == cases[..index];
      byExternalID := byExternalID[cases[index].externalID := cases[index]];
    }
    assert cases[..|cases|] == cases;
    for index := 0 to |cases|
      invariant forall i | 0 <= i < index :: SameOutcome(cases[i], LookUp(byExternalID, cases[i].reciprocalID))
    {
      if !SameOutcome(cases[index], LookUp(byExternalID, cases[index].reciprocalID)) {
        return false;
      }
    }
    ok := true;
  }

  /** On accepted cases the case looked up is the partner: partners expect the same outcome for the same reason. */
  lemma LookedUpCaseIsPartner(revision: Revision, cases: seq<Case>, i: nat)
    requires PairedCases(revision, cases) && i < |cases|
    ensures HasPartner(cases, i) && LookUp(ByExternalID(cases), cases[i].reciprocalID) == cases[PartnerOf(cases, i)]
  {
    assert HasPartner(cases, i);
    PartnerLookup(cases, i);
    ExternalLookup(cases);
  }

  /** The outcome check passes exactly when reciprocal cases expect the same outcome for the same reason. */
  lemma OutcomesAgreeExactly(revision: Revision, cases: seq<Case>)
    requires PairedCases(revision, cases)
    ensures (forall i | 0 <= i < |cases| :: SameOutcome(cases[i], LookUp(ByExternalID(cases), cases[i].reciprocalID)))
       <==> forall i, j | 0 <= i < |cases| && 0 <= j < |cases| && Reciprocal(cases[i], cases[j]) ::
              cases[i].outcome == cases[j].outcome && cases[i].reasonCode == cases[j].reasonCode
  {
    forall i: nat | i < |cases| ensures LookUp(ByExternalID(cases), cases[i].reciprocalID) == cases[PartnerOf(cases, i)] {
      LookedUpCaseIsPartner(revision, cases, i);
    }
    forall i: nat, j: nat | i < |cases| && j < |cases| && Reciprocal(cases[i], cases[j]) ensures HasPartner(cases, i) && PartnerOf(cases, i) == j {
      assert HasPartner(cases, i);
      PartnerIsUnique(cases, i, j);
    }
  }

  lemma PartnerIsUnique(cases: seq<Case>, i: nat, j: nat)
    requires DistinctCases(cases) && i < |cases| && j < |cases| && Reciprocal(cases[i], cases[j]) && HasPartner(cases, i)
    ensures PartnerOf(cases, i) == j
  {
    SameExternalID(cases, PartnerOf(cases, i), j);
  }

  lemma SameExternalID(cases: seq<Case>, i: nat, j: nat)
    requires DistinctCases(cases) && i < |cases| && j < |cases| && cases[i].externalID == cases[j].externalID
    ensures i == j
  {
  }

  // ---------------------------------------------------------------- Starter selections

  /** Cases by identifier; a later case takes over an identifier. */
  function ByID(cases: seq<Case>): map<Uuid, Case> {
    if cases == [] then map[] else ByID(cases[..|cases| - 1])[cases[|cases| - 1].id := cases[|cases| - 1]]
  }

  /** The first case with an external identifier, or the zero case. */
  function FindByExternalID(cases: seq<Case>, externalID: string): Case {
    if cases == [] then ZeroCase()
    else if cases[0].externalID == externalID then cases[0]
    else FindByExternalID(cases[1..], externalID)
  }

  method FindCaseByExternalID(cases: seq<Case>, externalID: string) returns (found: Case)
    ensures found == FindByExternalID(cases, externalID)
  {
    for index := 0 to |cases|
      invariant FindByExternalID(cases, externalID) == FindByExternalID(cases[index..], externalID)
    {
      assert cases[index..][1..] == cases[index + 1..];
      if cases[index].externalID == externalID {
        return cases[index];
      }
    }
    found := ZeroCase();
  }

  /** A selection on its own: reviewed, ranked one to five, and a faithful copy of its case's language and checksum. */
  predicate ValidSelection(revision: Revision, caseByID: map<Uuid, Case>, s: Selection) {
    && s.id != NIL && s.revisionID == revision.id && s.corpusID == revision.corpusID
    && 1 <= s.rank <= 5 && ValidLanguage(s.language) && s.reviewEligible && IsSha256(s.checksum)
    && s.caseID in caseByID && caseByID[s.caseID].language == s.language && caseByID[s.caseID].checksum == s.checksum
  }

  ghost predicate DistinctSelections(selections: seq<Selection>) {
    forall i, j | 0 <= i < j < |selections| ::
      && selections[i].caseID != selections[j].caseID
      && (selections[i].rank, selections[i].language) != (selections[j].rank, selections[j].language)
  }

  /** Selection j answers selection i: same rank, other language, for the reciprocal case. */
  predicate Answers(cases: seq<Case>, caseByID: map<Uuid, Case>, s: Selection, t: Selection) {
    && s.caseID in caseByID
    && t.caseID == FindByExternalID(cases, caseByID[s.caseID].reciprocalID).id
    && t.rank == s.rank && t.language != s.language
  }

  ghost predicate IsAnswered(cases: seq<Case>, caseByID: map<Uuid, Case>, selections: seq<Selection>, i: nat)
    requires i < |selections|
  {
    exists j :: 0 <= j < |selections| && Answers(cases, caseByID, selections[i], selections[j])
  }

  ghost predicate AcceptedStarters(revision: Revision, cases: seq<Case>, selections: seq<Selection>) {
    && (forall i | 0 <= i < |selections| :: ValidSelection(revision, ByID(cases), selections[i]))
    && DistinctSelections(selections)
    && forall i | 0 <= i < |selections| :: IsAnswered(cases, ByID(cases), selections, i)
  }

  function ByCase(selections: seq<Selection>): map<Uuid, Selection> {
    if selections == [] then map[]
    else ByCase(selections[..|selections| - 1])[selections[|selections| - 1].caseID := selections[|selections| - 1]]
  }

  lemma {:induction false} SelectionLookup(selections: seq<Selection>)
    requires DistinctSelections(selections)
    ensures forall i | 0 <= i < |selections| :: selections[i].caseID in ByCase(selections) && ByCase(selections)[selections[i].caseID] == selections[i]
    ensures forall id | id in ByCase(selections) :: exists i :: 0 <= i < |selections| && selections[i].caseID == id
  {
    if selections != [] {
      var earlier := selections[..|selections| - 1];
      SelectionLookup(earlier);
      forall id | id in ByCase(earlier) ensures exists i :: 0 <= i < |selections| && selections[i].caseID == id {
        var i :| 0 <= i < |earlier| && earlier[i].caseID == id;
        assert selections[i].caseID == id;
      }
    }
  }

  lemma AnswerLookup(cases: seq<Case>, caseByID: map<Uuid, Case>, selections: seq<Selection>, i: nat)
    requires DistinctSelections(selections) && i < |selections| && selections[i].caseID in caseByID
    ensures var paired := FindByExternalID(cases, caseByID[selections[i].caseID].reciprocalID).id;
            IsAnswered(cases, caseByID, selections, i) <==>
              paired in ByCase(selections) && Answers(cases, caseByID, selections[i], ByCase(selections)[paired])
  {
    SelectionLookup(selections);
    var paired := FindByExternalID(cases, caseByID[selections[i].caseID].reciprocalID).id;
    if paired in ByCase(selections) {
      var j :| 0 <= j < |selections| && selections[j].caseID == paired;
      assert ByCase(selections)[selections[j].caseID] == selections[j];
    }
  }

  ghost function CaseIDs(selections: seq<Selection>): set<Uuid> {
    set s | s in selections :: s.caseID
  }

  ghost function RankLanguages(selections: seq<Selection>): set<(int, Language)> {
    set s | s in selections :: (s.rank, s.language)
  }

  /** One more selection is new in both indexes. */
  ghost predicate NewSelection(earlier: seq<Selection>, s: Selection) {
    s.caseID !in CaseIDs(earlier) && (s.rank, s.language) !in RankLanguages(earlier)
  }

  lemma DistinctSelectionsOneMore(earlier: seq<Selection>, s: Selection)
    ensures DistinctSelections(earlier + [s]) <==> DistinctSelections(earlier) && NewSelection(earlier, s)
  {
    var longer := earlier + [s];
    if DistinctSelections(longer) {
      forall t | t in earlier ensures t.caseID != s.caseID && (t.rank, t.language) != (s.rank, s.language) {
        var i :| 0 <= i < |earlier| && earlier[i] == t;
        assert longer[i] == t && longer[|earlier|] == s;
      }
      forall i, j | 0 <= i < j < |earlier|
        ensures earlier[i].caseID != earlier[j].caseID && (earlier[i].rank, earlier[i].language) != (earlier[j].rank, earlier[j].language)
      {
        assert longer[i] == earlier[i] && longer[j] == earlier[j];
      }
    }
    if DistinctSelections(earlier) && NewSelection(earlier, s) {
      forall i, j | 0 <= i < j < |longer|
        ensures longer[i].caseID != longer[j].caseID && (longer[i].rank, longer[i].language) != (longer[j].rank, longer[j].language)
      {
        assert longer[i] == earlier[i] && longer[i] in earlier;
      }
    }
  }

  lemma SelectionsOneMore(selections: seq<Selection>, n: nat)
    requires n < |selections|
    ensures DistinctSelections(selections[..n + 1]) <==> DistinctSelections(selections[..n]) && NewSelection(selections[..n], selections[n])
    ensures CaseIDs(selections[..n + 1]) == CaseIDs(selections[..n]) + {selections[n].caseID}
    ensures RankLanguages(selections[..n + 1]) == RankLanguages(selections[..n]) + {(selections[n].rank, selections[n].language)}
    ensures ByCase(selections[..n + 1]) == ByCase(selections[..n])[selections[n].caseID := selections[n]]
  {
    DistinctSelectionsOneMore(selections[..n], selections[n]);
    assert selections[..n + 1] == selections[..n] + [selections[n]] && selections[..n + 1][..n] == selections[..n];
  }

  /** The first pass over the selections fills the two indexes. */
  method IndexSelections(revision: Revision, caseByID: map<Uuid, Case>, selections: seq<Selection>)
    returns (ok: bool, byCase: map<Uuid, Selection>)
    ensures ok <==> DistinctSelections(selections) && forall i | 0 <= i < |selections| :: ValidSelection(revision, caseByID, selections[i])
    ensures ok ==> byCase == ByCase(selections)
  {
    byCase := map[];
    var chosen: set<Uuid>, rankLanguages: set<(int, Language)> := {}, {};
    for index := 0 to |selections|
      invariant forall i | 0 <= i < index :: ValidSelection(revision, caseByID, selections[i])
      invariant DistinctSelections(selections[..index]) && byCase == ByCase(selections[..index])
      invariant chosen == CaseIDs(selections[..index]) && rankLanguages == RankLanguages(selections[..index])
    {
      var s := selections[index];
      SelectionsOneMore(selections, index);
      if !ValidSelection(revision, caseByID, s) || s.caseID in chosen || (s.rank, s.language) in rankLanguages {
        return false, map[];
      }
      byCase := byCase[s.caseID := s];
      chosen, rankLanguages := chosen + {s.caseID}, rankLanguages + {(s.rank, s.language)};
    }
    assert selections[..|selections|] == selections;
    ok := true;
  }

  method ValidateStarterSelections(revision: Revision, cases: array<Case>, selections: seq<Selection>) returns (ok: bool)
    modifies cases
    ensures ok <==> PairedCases(revision, old(cases[..])) && AcceptedStarters(revision, DefaultedAll(old(cases[..])), selections)
    ensures ok ==> cases[..] == DefaultedAll(old(cases[..])) && PairedCases(revision, cases[..])
  {
    var paired := ValidatePairedCases(revision, cases);
    if !paired {
      return false;
    }
    ok := CheckSelections(revision, cases[..], selections);
  }

  /** Each selection on its own, then the selection of its reciprocal case. */
  method CheckSelections(revision: Revision, cases: seq<Case>, selections: seq<Selection>) returns (ok: bool)
    ensures ok <==> AcceptedStarters(revision, cases, selections)
  {
    if |selections| == 0 {
      return true;
    }
    var caseByID := ByID(cases);
    var indexed, byCase := IndexSelections(revision, caseByID, selections);
    if !indexed {
      return false;
    }
    for index := 0 to |selections|
      invariant forall i: nat | i < index :: IsAnswered(cases, caseByID, selections, i)
    {
      var s := selections[index];
      assert ValidSelection(revision, caseByID, s);
      AnswerLookup(cases, caseByID, selections, index);
      var paired := FindCaseByExternalID(cases, caseByID[s.caseID].reciprocalID);
      if paired.id !in byCase || byCase[paired.id].rank != s.rank || byCase[paired.id].language == s.language {
        return false;
      }
      SelectionLookup(selections);
    }
    ok := true;
  }

  // ---------------------------------------------------------------- Ranks

  function RankCount(selections: seq<Selection>, rank: int): nat {
    if selections == [] then 0
    else RankCount(selections[..|selections| - 1], rank) + if selections[|selections| - 1].rank == rank then 1 else 0
  }

  function SlotCount(selections: seq<Selection>, rank: int, language: Language): nat {
    if selections == [] then 0
    else SlotCount(selections[..|selections| - 1], rank, language)
         + if selections[|selections| - 1].rank == rank && selections[|selections| - 1].language == language then 1 else 0
  }

  lemma {:induction false} SlotsPartitionRank(selections: seq<Selection>, rank: int)
    requires forall i | 0 <= i < |selections| :: ValidLanguage(selections[i].language)
    ensures RankCount(selections, rank) == SlotCount(selections, rank, English) + SlotCount(selections, rank, Portuguese)
  {
    if selections != [] {
      SlotsPartitionRank(selections[..|selections| - 1], rank);
    }
  }

  lemma {:induction false} SlotEmpty(selections: seq<Selection>, rank: int, language: Language)
    requires forall i | 0 <= i < |selections| :: (selections[i].rank, selections[i].language) != (rank, language)
    ensures SlotCount(selections, rank, language) == 0
  {
    if selections != [] {
      SlotEmpty(selections[..|selections| - 1], rank, language);
    }
  }

  lemma {:induction false} SlotOnce(selections: seq<Selection>, at: nat)
    requires at < |selections| && DistinctSelections(selections)
    ensures SlotCount(selections, selections[at].rank, selections[at].language) == 1
  {
    var earlier := selections[..|selections| - 1];
    if at < |earlier| {
      SlotOnce(earlier, at);
    } else {
      SlotEmpty(earlier, selections[at].rank, selections[at].language);
    }
  }

  /** Selection t is of the partner, in the other language and at the same rank, of the case that s selects. */
  ghost predicate SelectsPartner(cases: seq<Case>, s: Selection, t: Selection) {
    && t.rank == s.rank && t.language != s.language
    && exists k, m :: 0 <= k < |cases| && 0 <= m < |cases| && Selects(s, cases[k]) && t.caseID == cases[m].id && Reciprocal(cases[k], cases[m])
  }

  predicate Selects(s: Selection, c: Case) {
    s.caseID == c.id && s.language == c.language && s.checksum == c.checksum
  }

  lemma {:induction false} ByIDHolds(cases: seq<Case>, id: Uuid)
    requires id in ByID(cases)
    ensures exists k :: 0 <= k < |cases| && cases[k].id == id && ByID(cases)[id] == cases[k]
  {
    var n := |cases| - 1;
    if cases[n].id != id {
      ByIDHolds(cases[..n], id);
      var k :| 0 <= k < n && cases[..n][k].id == id && ByID(cases[..n])[id] == cases[..n][k];
      assert cases[k].id == id && ByID(cases)[id] == cases[k];
    }
  }

  lemma {:induction false} FoundIsThatCase(cases: seq<Case>, m: nat)
    requires DistinctCases(cases) && m < |cases|
    ensures FindByExternalID(cases, cases[m].externalID) == cases[m]
  {
    if m > 0 {
      assert cases[0].externalID != cases[m].externalID;
      assert cases[1..][m - 1] == cases[m];
      forall i, j | 0 <= i < j < |cases[1..]| ensures cases[1..][i].externalID != cases[1..][j].externalID && cases[1..][i].position != cases[1..][j].position {
        assert cases[i + 1].externalID != cases[j + 1].externalID && cases[i + 1].position != cases[j + 1].position;
      }
      FoundIsThatCase(cases[1..], m - 1);
    }
  }

  /** Accepted starters select cases of the revision as they are, and with each the partner at the same rank. */
  lemma StartersSelectPairs(revision: Revision, cases: seq<Case>, selections: seq<Selection>, i: nat)
    requires PairedCases(revision, cases) && AcceptedStarters(revision, cases, selections) && i < |selections|
    ensures exists j :: 0 <= j < |selections| && SelectsPartner(cases, selections[i], selections[j])
  {
    var s, byID := selections[i], ByID(cases);
    assert ValidSelection(revision, byID, s) && IsAnswered(cases, byID, selections, i);
    ByIDHolds(cases, s.caseID);
    var k: nat :| k < |cases| && cases[k].id == s.caseID && byID[s.caseID] == cases[k];
    assert HasPartner(cases, k);
    var m := PartnerOf(cases, k);
    FoundIsThatCase(cases, m);
    var j :| 0 <= j < |selections| && Answers(cases, byID, s, selections[j]);
    assert Selects(s, cases[k]) && selections[j].caseID == cases[m].id && Reciprocal(cases[k], cases[m]);
    assert SelectsPartner(cases, s, selections[j]);
  }

  /** Every rank in use is used exactly twice, once per language. */
  lemma AcceptedRanksComeInPairs(revision: Revision, cases: seq<Case>, selections: seq<Selection>, i: nat)
    requires AcceptedStarters(revision, cases, selections) && i < |selections|
    ensures RankCount(selections, selections[i].rank) == 2
    ensures SlotCount(selections, selections[i].rank, English) == SlotCount(selections, selections[i].rank, Portuguese) == 1
  {
    assert IsAnswered(cases, ByID(cases), selections, i);
    var j :| 0 <= j < |selections| && Answers(cases, ByID(cases), selections[i], selections[j]);
    forall k | 0 <= k < |selections| ensures ValidLanguage(selections[k].language) {
      assert ValidSelection(revision, ByID(cases), selections[k]);
    }
    SlotOnce(selections, i);
    SlotOnce(selections, j);
    SlotsPartitionRank(selections, selections[i].rank);
  }

  function MaxRank(selections: seq<Selection>): int {
    if selections == [] then 0
    else
      var earlier, last := MaxRank(selections[..|selections| - 1]), selections[|selections| - 1].rank;
      if last > earlier then last else earlier
  }

  method ValidateStarterRanks(selections: seq<Selection>) returns (ok: bool)
    ensures ok <==> RanksChecked(selections)
  {
    if |selections| == 0 {
      return true;
    }
    var rankCounts: map<int, nat> := map[];
    var maxRank := 0;
    for index := 0 to |selections|
      invariant forall rank :: (if rank in rankCounts then rankCounts[rank] else 0) == RankCount(selections[..index], rank)
      invariant maxRank == MaxRank(selections[..index])
    {
      var rank := selections[index].rank;
      assert selections[..index + 1][..index] == selections[..index];
      rankCounts := rankCounts[rank := (if rank in rankCounts then rankCounts[rank] else 0) + 1];
      if rank > maxRank {
        maxRank := rank;
      }
    }
    assert selections[..|selections|] == selections;
    MaxRankIsNotNegative(selections);
    for rank := 1 to maxRank + 1
      invariant forall r | 1 <= r < rank :: RankCount(selections, r) == 2
    {
      if rank !in rankCounts || rankCounts[rank] != 2 {
        return false;
      }
    }
    ok := true;
  }

  lemma {:induction false} MaxRankIsNotNegative(selections: seq<Selection>)
    ensures MaxRank(selections) >= 0
    ensures forall i | 0 <= i < |selections| :: selections[i].rank <= MaxRank(selections)
    ensures MaxRank(selections) > 0 ==> exists i :: 0 <= i < |selections| && selections[i].rank == MaxRank(selections)
  {
    if selections != [] {
      var earlier := selections[..|selections| - 1];
      MaxRankIsNotNegative(earlier);
      if MaxRank(selections) > 0 && MaxRank(selections) == MaxRank(earlier) {
        var i :| 0 <= i < |earlier| && earlier[i].rank == MaxRank(earlier);
        assert selections[i].rank == MaxRank(selections);
      }
    }
  }

  lemma {:induction false} RankAbsent(selections: seq<Selection>, rank: int)
    ensures RankCount(selections, rank) == 0 <==> forall i | 0 <= i < |selections| :: selections[i].rank != rank
  {
    if selections != [] {
      RankAbsent(selections[..|selections| - 1], rank);
    }
  }

  function CountUpTo(selections: seq<Selection>, top: nat): nat {
    if top == 0 then 0 else CountUpTo(selections, top - 1) + RankCount(selections, top)
  }

  lemma {:induction false} CountsByLast(selections: seq<Selection>, top: nat)
    requires selections != [] && selections[|selections| - 1].rank >= 1
    ensures CountUpTo(selections, top) == CountUpTo(selections[..|selections| - 1], top)
                                        + if selections[|selections| - 1].rank <= top then 1 else 0
  {
    if top > 0 {
      CountsByLast(selections, top - 1);
    }
  }

  lemma {:induction false} AllCounted(selections: seq<Selection>, top: nat)
    requires forall i | 0 <= i < |selections| :: 1 <= selections[i].rank <= top
    ensures CountUpTo(selections, top) == |selections|
  {
    if selections == [] {
      NoneCounted(top);
    } else {
      AllCounted(selections[..|selections| - 1], top);
      CountsByLast(selections, top);
    }
  }

  lemma {:induction false} NoneCounted(top: nat)
    ensures CountUpTo([], top) == 0
  {
    if top > 0 {
      NoneCounted(top - 1);
    }
  }

  lemma {:induction false} TwoEach(selections: seq<Selection>, top: nat)
    requires forall rank | 1 <= rank <= top :: RankCount(selections, rank) == 2
    ensures CountUpTo(selections, top) == 2 * top
  {
    if top > 0 {
      TwoEach(selections, top - 1);
    }
  }

  ghost predicate RankUsed(selections: seq<Selection>, rank: int) {
    exists i :: 0 <= i < |selections| && selections[i].rank == rank
  }

  lemma UsedRanksAreUsedTwice(revision: Revision, cases: seq<Case>, selections: seq<Selection>, rank: int)
    requires AcceptedStarters(revision, cases, selections)
    ensures RankCount(selections, rank) == 2 <==> RankUsed(selections, rank)
  {
    RankAbsent(selections, rank);
    if RankUsed(selections, rank) {
      var i :| 0 <= i < |selections| && selections[i].rank == rank;
      AcceptedRanksComeInPairs(revision, cases, selections, i);
    }
  }

  /** What the rank check establishes. */
  predicate RanksChecked(selections: seq<Selection>) {
    forall rank | 1 <= rank <= MaxRank(selections) :: RankCount(selections, rank) == 2
  }

  /** On accepted starters the rank check passes exactly when the ranks in use have no gap. */
  lemma RankCheckMeansNoGap(revision: Revision, cases: seq<Case>, selections: seq<Selection>)
    requires AcceptedStarters(revision, cases, selections)
    ensures RanksChecked(selections) <==> forall rank | 1 <= rank <= MaxRank(selections) :: RankUsed(selections, rank)
  {
    forall rank ensures RankCount(selections, rank) == 2 <==> RankUsed(selections, rank) {
      UsedRanksAreUsedTwice(revision, cases, selections, rank);
    }
  }

  /** Starters that pass both checks use the ranks 1 to m, each by one pair: 2 * m selections, m at most five. */
  lemma AcceptedRanksAreContiguous(revision: Revision, cases: seq<Case>, selections: seq<Selection>)
    requires AcceptedStarters(revision, cases, selections) && RanksChecked(selections)
    ensures 0 <= MaxRank(selections) <= 5 && |selections| == 2 * MaxRank(selections)
    ensures forall rank :: RankUsed(selections, rank) <==> 1 <= rank <= MaxRank(selections)
  {
    var m := MaxRank(selections);
    MaxRankIsNotNegative(selections);
    forall i | 0 <= i < |selections| ensures 1 <= selections[i].rank <= 5 { assert ValidSelection(revision, ByID(cases), selections[i]); }
    RankCheckMeansNoGap(revision, cases, selections);
    AllCounted(selections, m);
    TwoEach(selections, m);
  }
}
