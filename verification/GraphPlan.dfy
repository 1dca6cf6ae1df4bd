/** Validation of the graph planner's answer: bounded, catalogued, connected filters. */
module GraphPlan {
  import opened Evaluation

  const MAX_TERMS := 8
  const MAX_TERM_LENGTH := 80
  const MAX_SCOPE_LENGTH := 160

  /** A decoded provider value. */
  datatype Value = Absent | Flag(b: bool) | Text(s: string) | List(items: seq<Value>) | OtherValue

  datatype Decision = Decision(useGraph: Value, reason: Value, predicates: Value, labels: Value, scope: Value)

  datatype Capability = Capability(predicateName: string, labels: seq<string>)

  datatype Catalog = Catalog(capabilities: seq<Capability>, scopes: seq<string>)

  datatype Plan = Plan(useGraph: bool, reason: string, predicates: seq<string>, labels: seq<string>, scope: Option<string>)

  // ---------------------------------------------------------------- Bounded strings

  predicate Usable(normalized: string) {
    0 < |normalized| <= MAX_TERM_LENGTH
  }

  /** Every usable distinct term in order of first occurrence; normalize stands for strip and lower. */
  function Terms(items: seq<Value>, normalize: string -> string): seq<string> {
    if items == [] then []
    else
      var earlier, last := Terms(items[..|items| - 1], normalize), items[|items| - 1];
      if last.Text? && Usable(normalize(last.s)) && normalize(last.s) !in earlier then earlier + [normalize(last.s)] else earlier
  }

  function FirstOf(terms: seq<string>, limit: nat): seq<string> {
    if |terms| <= limit then terms else terms[..limit]
  }

  lemma {:induction false} TermsGrow(items: seq<Value>, n: nat, normalize: string -> string)
    requires n <= |items|
    ensures Terms(items[..n], normalize) <= Terms(items, normalize)
    decreases |items|
  {
    if n < |items| {
      assert items[..|items| - 1][..n] == items[..n];
      TermsGrow(items[..|items| - 1], n, normalize);
    } else {
      assert items[..n] == items;
    }
  }

  /** _bounded_strings: stops as soon as the limit is reached, and still gives the first terms of the whole list. */
  method BoundedStrings(value: Value, limit: nat, normalize: string -> string) returns (result: seq<string>)
    requires limit >= 1
    ensures result == if value.List? then FirstOf(Terms(value.items, normalize), limit) else []
  {
    result := [];
    if !value.List? {
      return;
    }
    var items := value.items;
    for index := 0 to |items|
      invariant result == Terms(items[..index], normalize) && |result| < limit
    {
      assert items[..index + 1][..index] == items[..index];
      var item := items[index];
      if item.Text? {
        var normalized := normalize(item.s);
        if Usable(normalized) && normalized !in result {
          result := result + [normalized];
          if |result| == limit {
            TermsGrow(items, index + 1, normalize);
            return;
          }
        }
      }
    }
    assert items[..|items|] == items;
  }

  ghost predicate Distinct(terms: seq<string>) {
    forall i, j | 0 <= i < j < |terms| :: terms[i] != terms[j]
  }

  lemma {:induction false} TermsAreClean(items: seq<Value>, normalize: string -> string)
    ensures Distinct(Terms(items, normalize))
    ensures forall t | t in Terms(items, normalize) :: Usable(t) && exists v :: v in items && v.Text? && normalize(v.s) == t
  {
    if items != [] {
      var earlier, last := items[..|items| - 1], items[|items| - 1];
      TermsAreClean(earlier, normalize);
      forall t | t in Terms(items, normalize) ensures Usable(t) && exists v :: v in items && v.Text? && normalize(v.s) == t {
        if t in Terms(earlier, normalize) {
          var v :| v in earlier && v.Text? && normalize(v.s) == t;
          assert v in items;
        } else {
          assert last in items;
        }
      }
    }
  }

  // ---------------------------------------------------------------- Connected filters

  function LabelSet(labels: seq<string>): set<string> {
    set l | l in labels
  }

  /** Labels by predicate; a later capability replaces an earlier one. */
  function LabelsByPredicate(capabilities: seq<Capability>): map<string, set<string>> {
    if capabilities == [] then map[]
    else
      var last := capabilities[|capabilities| - 1];
      LabelsByPredicate(capabilities[..|capabilities| - 1])[last.predicateName := LabelSet(last.labels)]
  }

  /** The members of a list that lie in a set, in order. */
  function Keep(terms: seq<string>, allowed: set<string>): seq<string> {
    if terms == [] then []
    else Keep(terms[..|terms| - 1], allowed) + if terms[|terms| - 1] in allowed then [terms[|terms| - 1]] else []
  }

  lemma {:induction false} KeepExactly(terms: seq<string>, allowed: set<string>)
    ensures forall t :: t in Keep(terms, allowed) <==> t in terms && t in allowed
    ensures |Keep(terms, allowed)| <= |terms|
    ensures Distinct(terms) ==> Distinct(Keep(terms, allowed))
  {
    if terms != [] {
      var earlier := terms[..|terms| - 1];
      KeepExactly(earlier, allowed);
      assert terms == earlier + [terms[|terms| - 1]];
    }
  }

  lemma {:induction false} KeepAll(terms: seq<string>, allowed: set<string>)
    requires forall t | t in terms :: t in allowed
    ensures Keep(terms, allowed) == terms
  {
    if terms != [] {
      KeepAll(terms[..|terms| - 1], allowed);
    }
  }

  function Supported(predicates: seq<string>, capable: map<string, set<string>>): set<string> {
    set p, l | p in predicates && p in capable && l in capable[p] :: l
  }

  /** The predicates that some listed label connects to. */
  function Connected(predicates: seq<string>, labels: seq<string>, capable: map<string, set<string>>): set<string> {
    set p | p in predicates && p in capable && exists l :: l in labels && l in capable[p]
  }

  /** _supported_plan_filters. */
  function Filters(predicates: seq<string>, labels: seq<string>, capable: map<string, set<string>>): (seq<string>, seq<string>) {
    if predicates == [] then ([], [])
    else
      var kept := Keep(labels, Supported(predicates, capable));
      (Keep(predicates, Connected(predicates, kept, capable)), kept)
  }

  ghost predicate EveryLabelConnects(ps: seq<string>, ls: seq<string>, capable: map<string, set<string>>) {
    forall l | l in ls :: exists p :: p in ps && p in capable && l in capable[p]
  }

  ghost predicate EveryPredicateConnects(ps: seq<string>, ls: seq<string>, capable: map<string, set<string>>) {
    forall p | p in ps :: p in capable && exists l :: l in ls && l in capable[p]
  }

  /** Kept predicates and labels are those given, and each is connected to a kept one of the other kind. */
  lemma FiltersConnect(predicates: seq<string>, labels: seq<string>, capable: map<string, set<string>>)
    requires forall p | p in predicates :: p in capable
    ensures var (ps, ls) := Filters(predicates, labels, capable);
            && (forall p | p in ps :: p in predicates) && EveryPredicateConnects(ps, ls, capable)
            && (forall l | l in ls :: l in labels) && EveryLabelConnects(ps, ls, capable)
            && |ps| <= |predicates| && |ls| <= |labels|
            && (Distinct(predicates) ==> Distinct(ps)) && (Distinct(labels) ==> Distinct(ls))
  {
    if predicates != [] {
      var supported := Supported(predicates, capable);
      var ls := Keep(labels, supported);
      KeepExactly(labels, supported);
      KeepExactly(predicates, Connected(predicates, ls, capable));
      forall l | l in ls ensures exists p :: p in Keep(predicates, Connected(predicates, ls, capable)) && l in capable[p] {
        var p :| p in predicates && p in capable && l in capable[p];
        assert p in Connected(predicates, ls, capable);
      }
    }
  }

  /** A label or predicate is dropped only when it connects to nothing. */
  lemma FiltersDropOnlyUnconnected(predicates: seq<string>, labels: seq<string>, capable: map<string, set<string>>)
    requires forall p | p in predicates :: p in capable
    ensures var (ps, ls) := Filters(predicates, labels, capable);
            && (forall l | l in labels && l !in ls :: forall p | p in predicates :: l !in capable[p])
            && (forall p | p in predicates && p !in ps :: forall l | l in labels :: l !in capable[p])
  {
    if predicates != [] {
      var supported := Supported(predicates, capable);
      var ls := Keep(labels, supported);
      KeepExactly(labels, supported);
      KeepExactly(predicates, Connected(predicates, ls, capable));
      forall p, l | p in predicates && l in labels && l in capable[p]
        ensures l in ls && p in Keep(predicates, Connected(predicates, ls, capable))
      {
        assert l in supported;
      }
    }
  }

  lemma ConnectedLabelsStay(ps: seq<string>, ls: seq<string>, capable: map<string, set<string>>)
    requires EveryLabelConnects(ps, ls, capable)
    ensures Keep(ls, Supported(ps, capable)) == ls
    ensures ps == [] ==> ls == []
  {
    forall l | l in ls ensures l in Supported(ps, capable) {
      var p :| p in ps && p in capable && l in capable[p];
    }
    KeepAll(ls, Supported(ps, capable));
    if ls != [] {
      assert ls[0] in ls;
      var p :| p in ps && p in capable && ls[0] in capable[p];
    }
  }

  lemma ConnectedPredicatesStay(ps: seq<string>, ls: seq<string>, capable: map<string, set<string>>)
    requires EveryPredicateConnects(ps, ls, capable)
    ensures Keep(ps, Connected(ps, ls, capable)) == ps
  {
    KeepAll(ps, Connected(ps, ls, capable));
  }

  /** Filtering again changes nothing. */
  lemma FiltersAreIdempotent(predicates: seq<string>, labels: seq<string>, capable: map<string, set<string>>)
    requires forall p | p in predicates :: p in capable
    ensures var (ps, ls) := Filters(predicates, labels, capable); Filters(ps, ls, capable) == (ps, ls)
  {
    var (ps, ls) := Filters(predicates, labels, capable);
    FiltersConnect(predicates, labels, capable);
    ConnectedLabelsStay(ps, ls, capable);
    ConnectedPredicatesStay(ps, ls, capable);
  }

  // ---------------------------------------------------------------- The plan

  const RELATIONSHIP_REQUIRED: string := "relationship_required"
  const UNCERTAIN: string := "uncertain"
  const OUTSIDE_GRAPH_SCOPE: string := "outside_graph_scope"

  function DecisionReason(value: Value, useGraph: bool): string {
    if !value.Text? || (value.s != RELATIONSHIP_REQUIRED && value.s != OUTSIDE_GRAPH_SCOPE && value.s != UNCERTAIN) then UNCERTAIN
    else if useGraph && value.s != RELATIONSHIP_REQUIRED then UNCERTAIN
    else if !useGraph && value.s == RELATIONSHIP_REQUIRED then UNCERTAIN
    else value.s
  }

  function ScopeLocator(value: Value, scopes: seq<string>, normalize: string -> string): Option<string> {
    if !value.Text? then None
    else
      var normalized := normalize(value.s);
      if normalized == "" || |normalized| > MAX_SCOPE_LENGTH || normalized !in scopes then None else Some(normalized)
  }

  function NoGraph(reason: string): Plan {
    Plan(false, reason, [], [], None)
  }

  ghost function ListedTerms(value: Value, normalize: string -> string): seq<string> {
    if value.List? then FirstOf(Terms(value.items, normalize), MAX_TERMS) else []
  }

  /** _plan: None stands for the provider error raised on a malformed decision. */
  ghost function PlanOf(decision: Option<Decision>, catalog: Catalog, normalize: string -> string): Option<Plan> {
    if decision.None? || !decision.value.useGraph.Flag? then None
    else
      var d := decision.value;
      var reason := DecisionReason(d.reason, d.useGraph.b);
      if !d.useGraph.b then Some(NoGraph(reason))
      else if reason != RELATIONSHIP_REQUIRED then Some(NoGraph(UNCERTAIN))
      else
        var capable := LabelsByPredicate(catalog.capabilities);
        var (predicates, labels) :=
          Filters(Keep(ListedTerms(d.predicates, normalize), capable.Keys), ListedTerms(d.labels, normalize), capable);
        if predicates == [] || labels == [] then Some(NoGraph(UNCERTAIN))
        else Some(Plan(true, reason, predicates, labels, ScopeLocator(d.scope, catalog.scopes, normalize)))
  }

  method MakePlan(decision: Option<Decision>, catalog: Catalog, normalize: string -> string) returns (plan: Option<Plan>)
    ensures plan == PlanOf(decision, catalog, normalize)
  {
    if decision.None? || !decision.value.useGraph.Flag? {
      return None;
    }
    var d := decision.value;
    var reason := DecisionReason(d.reason, d.useGraph.b);
    if !d.useGraph.b {
      return Some(NoGraph(reason));
    }
    if reason != RELATIONSHIP_REQUIRED {
      return Some(NoGraph(UNCERTAIN));
    }
    var capable := LabelsByPredicate(catalog.capabilities);
    var listedPredicates := BoundedStrings(d.predicates, MAX_TERMS, normalize);
    var listedLabels := BoundedStrings(d.labels, MAX_TERMS, normalize);
    var (predicates, labels) := Filters(Keep(listedPredicates, capable.Keys), listedLabels, capable);
    if predicates == [] || labels == [] {
      return Some(NoGraph(UNCERTAIN));
    }
    plan := Some(Plan(true, reason, predicates, labels, ScopeLocator(d.scope, catalog.scopes, normalize)));
  }

  ghost predicate BoundedTerms(terms: seq<string>) {
    1 <= |terms| <= 8 && Distinct(terms) && forall t | t in terms :: 0 < |t| <= 80
  }

  /** What a plan that uses the graph satisfies. */
  ghost predicate SoundPlan(plan: Plan, catalog: Catalog) {
    var capable := LabelsByPredicate(catalog.capabilities);
    && plan.reason == RELATIONSHIP_REQUIRED
    && BoundedTerms(plan.predicates) && BoundedTerms(plan.labels)
    && EveryPredicateConnects(plan.predicates, plan.labels, capable) && EveryLabelConnects(plan.predicates, plan.labels, capable)
    && (plan.scope.Some? ==> plan.scope.value in catalog.scopes && 0 < |plan.scope.value| <= 160)
    && Filters(plan.predicates, plan.labels, capable) == (plan.predicates, plan.labels)
  }

  lemma ListedTermsAreBounded(value: Value, normalize: string -> string)
    ensures |ListedTerms(value, normalize)| <= MAX_TERMS && Distinct(ListedTerms(value, normalize))
    ensures forall t | t in ListedTerms(value, normalize) :: Usable(t)
  {
    if value.List? {
      TermsAreClean(value.items, normalize);
    }
  }

  /**
   Whenever the graph is used, predicates and labels are non-empty, distinct and at most eight
   each, all catalogued, each connected to one of the other kind, and stable under filtering;
   otherwise the plan carries no filters at all.
   */
  lemma PlansAreSound(decision: Option<Decision>, catalog: Catalog, normalize: string -> string)
    requires PlanOf(decision, catalog, normalize).Some?
    ensures var plan := PlanOf(decision, catalog, normalize).value;
            && (plan.useGraph ==> SoundPlan(plan, catalog))
            && (!plan.useGraph ==> plan == NoGraph(plan.reason) && (plan.reason == UNCERTAIN || plan.reason == OUTSIDE_GRAPH_SCOPE))
  {
    var d := decision.value;
    ListedTermsAreBounded(d.predicates, normalize);
    ListedTermsAreBounded(d.labels, normalize);
    if PlanOf(decision, catalog, normalize).value.useGraph {
      FilteredPlanIsSound(ListedTerms(d.predicates, normalize), ListedTerms(d.labels, normalize), catalog, d.scope, normalize);
    }
  }

  lemma BoundedPart(part: seq<string>, whole: seq<string>)
    requires part != [] && |part| <= |whole| <= MAX_TERMS && Distinct(part)
    requires (forall t | t in part :: t in whole) && forall t | t in whole :: Usable(t)
    ensures BoundedTerms(part)
  {
  }

  lemma SoundParts(ps: seq<string>, ls: seq<string>, catalog: Catalog, scope: Value, normalize: string -> string)
    requires BoundedTerms(ps) && BoundedTerms(ls)
    requires var capable := LabelsByPredicate(catalog.capabilities);
             EveryPredicateConnects(ps, ls, capable) && EveryLabelConnects(ps, ls, capable) && Filters(ps, ls, capable) == (ps, ls)
    ensures SoundPlan(Plan(true, RELATIONSHIP_REQUIRED, ps, ls, ScopeLocator(scope, catalog.scopes, normalize)), catalog)
  {
  }

  lemma FilteredPlanIsSound(listed: seq<string>, labels: seq<string>, catalog: Catalog, scope: Value, normalize: string -> string)
    requires |listed| <= MAX_TERMS && Distinct(listed) && forall t | t in listed :: Usable(t)
    requires |labels| <= MAX_TERMS && Distinct(labels) && forall t | t in labels :: Usable(t)
    ensures var capable := LabelsByPredicate(catalog.capabilities);
            var (ps, ls) := Filters(Keep(listed, capable.Keys), labels, capable);
            ps != [] && ls != [] ==> SoundPlan(Plan(true, RELATIONSHIP_REQUIRED, ps, ls, ScopeLocator(scope, catalog.scopes, normalize)), catalog)
  {
    var capable := LabelsByPredicate(catalog.capabilities);
    var known := Keep(listed, capable.Keys);
    var (ps, ls) := Filters(known, labels, capable);
    KnownTerms(listed, capable);
    FiltersConnect(known, labels, capable);
    FiltersAreIdempotent(known, labels, capable);
    if ps != [] && ls != [] {
      BoundedPart(ps, known);
      BoundedPart(ls, labels);
      SoundParts(ps, ls, catalog, scope, normalize);
    }
  }

  lemma KnownTerms(listed: seq<string>, capable: map<string, set<string>>)
    requires |listed| <= MAX_TERMS && Distinct(listed) && forall t | t in listed :: Usable(t)
    ensures var known := Keep(listed, capable.Keys);
            |known| <= MAX_TERMS && Distinct(known) && forall t | t in known :: Usable(t) && t in capable
  {
    KeepExactly(listed, capable.Keys);
  }

  ghost predicate Meet(predicates: seq<string>, labels: seq<string>, capable: map<string, set<string>>) {
    exists p, l :: p in predicates && l in labels && p in capable && l in capable[p]
  }

  lemma ConnectedListsMeet(predicates: seq<string>, labels: seq<string>, ps: seq<string>, ls: seq<string>, capable: map<string, set<string>>)
    requires EveryPredicateConnects(ps, ls, capable) && ps != []
    requires (forall p | p in ps :: p in predicates) && forall l | l in ls :: l in labels
    ensures Meet(predicates, labels, capable)
  {
    assert ps[0] in ps;
    var l :| l in ls && l in capable[ps[0]];
  }

  lemma KeptListsMeet(predicates: seq<string>, labels: seq<string>, capable: map<string, set<string>>)
    requires forall p | p in predicates :: p in capable
    requires Filters(predicates, labels, capable).0 != []
    ensures Meet(predicates, labels, capable)
  {
    FiltersConnect(predicates, labels, capable);
    ConnectedListsMeet(predicates, labels, Filters(predicates, labels, capable).0, Filters(predicates, labels, capable).1, capable);
  }

  lemma MeetingPairIsKept(predicates: seq<string>, labels: seq<string>, capable: map<string, set<string>>, p: string, l: string)
    requires forall q | q in predicates :: q in capable
    requires p in predicates && l in labels && l in capable[p]
    ensures p in Filters(predicates, labels, capable).0 && l in Filters(predicates, labels, capable).1
  {
    FiltersDropOnlyUnconnected(predicates, labels, capable);
  }

  lemma FiltersKeepSomethingExactlyWhenConnected(predicates: seq<string>, labels: seq<string>, capable: map<string, set<string>>)
    requires forall p | p in predicates :: p in capable
    ensures Filters(predicates, labels, capable).0 != [] && Filters(predicates, labels, capable).1 != [] <==> Meet(predicates, labels, capable)
  {
    if Filters(predicates, labels, capable).0 != [] {
      KeptListsMeet(predicates, labels, capable);
    }
    if Meet(predicates, labels, capable) {
      var p, l :| p in predicates && l in labels && p in capable && l in capable[p];
      MeetingPairIsKept(predicates, labels, capable, p, l);
    }
  }

  lemma MeetAmongKnown(listed: seq<string>, labels: seq<string>, capable: map<string, set<string>>)
    ensures Meet(Keep(listed, capable.Keys), labels, capable) <==> Meet(listed, labels, capable)
  {
    KeepExactly(listed, capable.Keys);
    if Meet(listed, labels, capable) {
      var p, l :| p in listed && l in labels && p in capable && l in capable[p];
      assert p in Keep(listed, capable.Keys);
    }
  }

  /** The graph is used exactly when the model asks for it and some listed predicate meets some listed label. */
  lemma GraphIsUsedExactlyWhenConnected(decision: Option<Decision>, catalog: Catalog, normalize: string -> string)
    requires PlanOf(decision, catalog, normalize).Some?
    ensures var d := decision.value;
            PlanOf(decision, catalog, normalize).value.useGraph <==>
              && d.useGraph.b && d.reason == Text(RELATIONSHIP_REQUIRED)
              && Meet(ListedTerms(d.predicates, normalize), ListedTerms(d.labels, normalize), LabelsByPredicate(catalog.capabilities))
  {
    var d, capable := decision.value, LabelsByPredicate(catalog.capabilities);
    var listed, labels := ListedTerms(d.predicates, normalize), ListedTerms(d.labels, normalize);
    KeepExactly(listed, capable.Keys);
    MeetAmongKnown(listed, labels, capable);
    FiltersKeepSomethingExactlyWhenConnected(Keep(listed, capable.Keys), labels, capable);
  }

  // ---------------------------------------------------------------- What the plan reports

  /** The usable normalised texts among some values. */
  ghost function UsableTexts(items: seq<Value>, normalize: string -> string): set<string> {
    set v | v in items && v.Text? && Usable(normalize(v.s)) :: normalize(v.s)
  }

  /** Value n is the first one with the term t. */
  ghost predicate Introduces(items: seq<Value>, normalize: string -> string, n: int, t: string) {
    && 0 <= n < |items| && items[n].Text? && normalize(items[n].s) == t && Usable(t)
    && t !in UsableTexts(items[..n], normalize)
  }

  lemma {:induction false} TermsAreUsableTexts(items: seq<Value>, normalize: string -> string)
    ensures forall t :: t in Terms(items, normalize) <==> t in UsableTexts(items, normalize)
    ensures |Terms(items, normalize)| == |UsableTexts(items, normalize)|
  {
    if items != [] {
      var earlier, last := items[..|items| - 1], items[|items| - 1];
      TermsAreUsableTexts(earlier, normalize);
      assert items == earlier + [last];
      assert UsableTexts(items, normalize)
          == UsableTexts(earlier, normalize) + if last.Text? && Usable(normalize(last.s)) then {normalize(last.s)} else {};
    }
  }

  /** The terms stand in the order in which they are introduced. */
  lemma {:induction false} TermsAreIntroduced(items: seq<Value>, normalize: string -> string, k: nat)
    requires k < |Terms(items, normalize)|
    ensures exists n :: Introduces(items, normalize, n, Terms(items, normalize)[k]) && |UsableTexts(items[..n], normalize)| == k
  {
    var earlier, last := items[..|items| - 1], items[|items| - 1];
    TermsAreUsableTexts(earlier, normalize);
    if k < |Terms(earlier, normalize)| {
      TermsAreIntroduced(earlier, normalize, k);
      var n :| Introduces(earlier, normalize, n, Terms(earlier, normalize)[k]) && |UsableTexts(earlier[..n], normalize)| == k;
      assert items[..n] == earlier[..n];
      assert Introduces(items, normalize, n, Terms(items, normalize)[k]);
    } else {
      assert items[..|items| - 1] == earlier;
      assert Introduces(items, normalize, |items| - 1, Terms(items, normalize)[k]);
    }
  }

  /** A list of values names its usable texts, first come first, up to the limit. */
  ghost predicate ListsFirst(terms: seq<string>, items: seq<Value>, normalize: string -> string, limit: nat) {
    && |terms| == (if |UsableTexts(items, normalize)| < limit then |UsableTexts(items, normalize)| else limit)
    && forall k | 0 <= k < |terms| :: exists n :: Introduces(items, normalize, n, terms[k]) && |UsableTexts(items[..n], normalize)| == k
  }

  lemma ListedAreFirst(value: Value, normalize: string -> string)
    ensures value.List? ==> ListsFirst(ListedTerms(value, normalize), value.items, normalize, MAX_TERMS)
    ensures !value.List? ==> ListedTerms(value, normalize) == []
  {
    if value.List? {
      TermsAreUsableTexts(value.items, normalize);
      forall k: nat | k < |ListedTerms(value, normalize)|
        ensures exists n :: Introduces(value.items, normalize, n, ListedTerms(value, normalize)[k]) && |UsableTexts(value.items[..n], normalize)| == k
      {
        TermsAreIntroduced(value.items, normalize, k);
      }
    }
  }

  /** The last capability published for a predicate names the label. */
  ghost predicate Publishes(capabilities: seq<Capability>, p: string, l: string) {
    exists i :: 0 <= i < |capabilities| && LastFor(capabilities, i, p) && l in capabilities[i].labels
  }

  ghost predicate LastFor(capabilities: seq<Capability>, i: int, p: string) {
    && 0 <= i < |capabilities| && capabilities[i].predicateName == p
    && forall j | i < j < |capabilities| :: capabilities[j].predicateName != p
  }

  lemma {:induction false} LabelsArePublished(capabilities: seq<Capability>, p: string, l: string)
    ensures p in LabelsByPredicate(capabilities) && l in LabelsByPredicate(capabilities)[p] <==> Publishes(capabilities, p, l)
  {
    if capabilities != [] {
      var earlier, last := capabilities[..|capabilities| - 1], capabilities[|capabilities| - 1];
      LabelsArePublished(earlier, p, l);
      if last.predicateName == p {
        assert LastFor(capabilities, |capabilities| - 1, p);
      } else {
        forall i ensures LastFor(capabilities, i, p) <==> LastFor(earlier, i, p) {
        }
      }
    }
  }

  ghost predicate Precedes(terms: seq<string>, first: string, second: string) {
    exists m, n :: 0 <= m < n < |terms| && terms[m] == first && terms[n] == second
  }

  /** Part keeps the order of whole. */
  ghost predicate InOrderOf(part: seq<string>, whole: seq<string>) {
    forall i, j | 0 <= i < j < |part| :: Precedes(whole, part[i], part[j])
  }

  lemma {:induction false} KeepInOrder(terms: seq<string>, allowed: set<string>)
    ensures InOrderOf(Keep(terms, allowed), terms)
  {
    if terms != [] {
      var earlier, kept := terms[..|terms| - 1], Keep(terms, allowed);
      KeepInOrder(earlier, allowed);
      KeepExactly(earlier, allowed);
      forall i, j | 0 <= i < j < |kept| ensures Precedes(terms, kept[i], kept[j]) {
        if j < |Keep(earlier, allowed)| {
          assert Precedes(earlier, Keep(earlier, allowed)[i], Keep(earlier, allowed)[j]);
          var m, n :| 0 <= m < n < |earlier| && earlier[m] == Keep(earlier, allowed)[i] && earlier[n] == Keep(earlier, allowed)[j];
          assert terms[m] == kept[i] && terms[n] == kept[j];
        } else {
          assert kept[i] == Keep(earlier, allowed)[i] && kept[i] in earlier;
          var m :| 0 <= m < |earlier| && earlier[m] == kept[i];
          assert terms[m] == kept[i] && terms[|terms| - 1] == kept[j];
        }
      }
    }
  }

  lemma InOrderTransitive(part: seq<string>, middle: seq<string>, whole: seq<string>)
    requires InOrderOf(part, middle) && InOrderOf(middle, whole)
    ensures InOrderOf(part, whole)
  {
    forall i, j | 0 <= i < j < |part| ensures Precedes(whole, part[i], part[j]) {
      assert Precedes(middle, part[i], part[j]);
      var k, l :| 0 <= k < l < |middle| && middle[k] == part[i] && middle[l] == part[j];
      assert Precedes(whole, middle[k], middle[l]);
    }
  }

  /** The listed predicates and labels that meet, each in the listed order. */
  ghost predicate MeetingTerms(plan: Plan, predicates: seq<string>, labels: seq<string>, capabilities: seq<Capability>) {
    && (forall p :: p in plan.predicates <==> p in predicates && exists l :: l in labels && Publishes(capabilities, p, l))
    && (forall l :: l in plan.labels <==> l in labels && exists p :: p in predicates && Publishes(capabilities, p, l))
    && InOrderOf(plan.predicates, predicates) && InOrderOf(plan.labels, labels)
  }

  lemma FiltersKeepOrder(listed: seq<string>, labels: seq<string>, capable: map<string, set<string>>)
    ensures var (ps, ls) := Filters(Keep(listed, capable.Keys), labels, capable); InOrderOf(ps, listed) && InOrderOf(ls, labels)
  {
    var known := Keep(listed, capable.Keys);
    if known != [] {
      var ls := Keep(labels, Supported(known, capable));
      KeepInOrder(listed, capable.Keys);
      KeepInOrder(labels, Supported(known, capable));
      KeepInOrder(known, Connected(known, ls, capable));
      InOrderTransitive(Keep(known, Connected(known, ls, capable)), known, listed);
    }
  }

  lemma FiltersKeepMeeting(listed: seq<string>, labels: seq<string>, capable: map<string, set<string>>)
    ensures var (ps, ls) := Filters(Keep(listed, capable.Keys), labels, capable);
            && (forall p :: p in ps <==> p in listed && exists l :: l in labels && p in capable && l in capable[p])
            && (forall l :: l in ls <==> l in labels && exists p :: p in listed && p in capable && l in capable[p])
  {
    var known := Keep(listed, capable.Keys);
    KeepExactly(listed, capable.Keys);
    FiltersConnect(known, labels, capable);
    FiltersDropOnlyUnconnected(known, labels, capable);
  }

  lemma MeetingIsPublished(plan: Plan, predicates: seq<string>, labels: seq<string>, capabilities: seq<Capability>)
    requires var capable := LabelsByPredicate(capabilities);
             && (forall p :: p in plan.predicates <==> p in predicates && exists l :: l in labels && p in capable && l in capable[p])
             && (forall l :: l in plan.labels <==> l in labels && exists p :: p in predicates && p in capable && l in capable[p])
    requires InOrderOf(plan.predicates, predicates) && InOrderOf(plan.labels, labels)
    ensures MeetingTerms(plan, predicates, labels, capabilities)
  {
    var capable := LabelsByPredicate(capabilities);
    forall p, l ensures Publishes(capabilities, p, l) <==> p in capable && l in capable[p] { LabelsArePublished(capabilities, p, l); }
    forall p ensures p in plan.predicates <==> p in predicates && exists l :: l in labels && Publishes(capabilities, p, l) {
      if l :| l in labels && p in capable && l in capable[p] {
        assert Publishes(capabilities, p, l);
      }
    }
    forall l ensures l in plan.labels <==> l in labels && exists p :: p in predicates && Publishes(capabilities, p, l) {
      if p :| p in predicates && p in capable && l in capable[p] {
        assert Publishes(capabilities, p, l);
      }
    }
  }

  /** The scope is the normalised text given, exactly if it is a published one of bounded length. */
  ghost predicate ScopeReported(scope: Option<string>, value: Value, scopes: seq<string>, normalize: string -> string) {
    && (scope.Some? <==> value.Text? && normalize(value.s) in scopes && 0 < |normalize(value.s)| <= MAX_SCOPE_LENGTH)
    && (scope.Some? ==> scope.value == normalize(value.s))
  }

  /**
   A plan with the graph keeps exactly the listed predicates and labels that meet in the catalog, in their order, and the
   scope given if it is published; one without the graph says that the question is outside exactly when the model did.
   */
  lemma PlansReportTheDecision(decision: Option<Decision>, catalog: Catalog, normalize: string -> string)
    requires PlanOf(decision, catalog, normalize).Some?
    ensures var d, plan := decision.value, PlanOf(decision, catalog, normalize).value;
            && (plan.useGraph ==>
                  && MeetingTerms(plan, ListedTerms(d.predicates, normalize), ListedTerms(d.labels, normalize), catalog.capabilities)
                  && ScopeReported(plan.scope, d.scope, catalog.scopes, normalize))
            && (!plan.useGraph ==>
                  plan.reason == if !d.useGraph.b && d.reason == Text(OUTSIDE_GRAPH_SCOPE) then OUTSIDE_GRAPH_SCOPE else UNCERTAIN)
  {
    var d, plan := decision.value, PlanOf(decision, catalog, normalize).value;
    if plan.useGraph {
      var capable := LabelsByPredicate(catalog.capabilities);
      FiltersKeepOrder(ListedTerms(d.predicates, normalize), ListedTerms(d.labels, normalize), capable);
      FiltersKeepMeeting(ListedTerms(d.predicates, normalize), ListedTerms(d.labels, normalize), capable);
      MeetingIsPublished(plan, ListedTerms(d.predicates, normalize), ListedTerms(d.labels, normalize), catalog.capabilities);
    }
  }
}
