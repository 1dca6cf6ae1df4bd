/** Hybrid retrieval: merging vector and graph evidence, and recording the stages. */
module EvidenceMerge {
  import opened Text
  import opened Evaluation

  datatype Contribution = FromVector | FromGraph | FromBoth

  /** One retrieved location; rest stands for the fields the merge only carries along. */
  datatype Evidence = Evidence(
    documentID: Uuid, unitLocator: string, startOffset: int, endOffset: int, rank: int, contribution: Contribution, rest: string)

  datatype Key = Key(documentID: Uuid, unitLocator: string, startOffset: int, endOffset: int)

  function KeyOf(e: Evidence): Key {
    Key(e.documentID, e.unitLocator, e.startOffset, e.endOffset)
  }

  // ---------------------------------------------------------------- The merge

  ghost predicate SameBut(result: Evidence, original: Evidence) {
    result == original.(rank := result.rank, contribution := result.contribution)
  }

  /** How often a location occurs. */
  function Occurrences(items: seq<Evidence>, key: Key): nat {
    if items == [] then 0
    else Occurrences(items[..|items| - 1], key) + if KeyOf(items[|items| - 1]) == key then 1 else 0
  }

  /** The first item at each location, in order. */
  function Firsts(items: seq<Evidence>): seq<Evidence> {
    if items == [] then []
    else
      var earlier, last := items[..|items| - 1], items[|items| - 1];
      Firsts(earlier) + if Occurrences(earlier, KeyOf(last)) == 0 then [last] else []
  }

  lemma {:induction false} OccursMeansPresent(items: seq<Evidence>, key: Key)
    ensures Occurrences(items, key) > 0 <==> exists e :: e in items && KeyOf(e) == key
  {
    if items != [] {
      var earlier, last := items[..|items| - 1], items[|items| - 1];
      OccursMeansPresent(earlier, key);
      assert items == earlier + [last];
      if Occurrences(earlier, key) > 0 {
        var e :| e in earlier && KeyOf(e) == key;
        assert e in items;
      } else if KeyOf(last) == key {
        assert last in items;
      }
    }
  }

  lemma {:induction false} FirstsAreItems(items: seq<Evidence>)
    ensures forall e | e in Firsts(items) :: e in items
  {
    if items != [] {
      FirstsAreItems(items[..|items| - 1]);
    }
  }

  lemma {:induction false} EveryLocationHasFirst(items: seq<Evidence>, key: Key)
    requires Occurrences(items, key) > 0
    ensures exists i :: 0 <= i < |Firsts(items)| && KeyOf(Firsts(items)[i]) == key
  {
    var earlier, last := items[..|items| - 1], items[|items| - 1];
    if Occurrences(earlier, key) > 0 {
      EveryLocationHasFirst(earlier, key);
      var i :| 0 <= i < |Firsts(earlier)| && KeyOf(Firsts(earlier)[i]) == key;
      assert Firsts(items)[i] == Firsts(earlier)[i];
    } else {
      assert Firsts(items)[|Firsts(earlier)|] == last;
    }
  }

  lemma {:induction false} FirstsDiffer(items: seq<Evidence>)
    ensures forall i, j | 0 <= i < j < |Firsts(items)| :: KeyOf(Firsts(items)[i]) != KeyOf(Firsts(items)[j])
  {
    if items != [] {
      var earlier, last := items[..|items| - 1], items[|items| - 1];
      FirstsDiffer(earlier);
      FirstsAreItems(earlier);
      OccursMeansPresent(earlier, KeyOf(last));
      forall i | 0 <= i < |Firsts(earlier)| && Occurrences(earlier, KeyOf(last)) == 0
        ensures KeyOf(Firsts(earlier)[i]) != KeyOf(last)
      {
        assert Firsts(earlier)[i] in Firsts(earlier);
      }
    }
  }

  /** A first item with the contribution its location earned so far. */
  function Credited(items: seq<Evidence>, first: Evidence): Evidence {
    if Occurrences(items, KeyOf(first)) >= 2 then first.(contribution := FromBoth) else first
  }

  function Merged(items: seq<Evidence>): seq<Evidence> {
    seq(|Firsts(items)|, i requires 0 <= i < |Firsts(items)| => Credited(items, Firsts(items)[i]))
  }

  function Ranked(items: seq<Evidence>): seq<Evidence> {
    seq(|items|, i requires 0 <= i < |items| => items[i].(rank := i + 1))
  }

  /** An insertion-ordered dictionary: its keys in insertion order, and its values. */
  ghost predicate Dictionary(order: seq<Key>, locations: map<Key, Evidence>, items: seq<Evidence>) {
    && |order| == |Firsts(items)|
    && (forall i | 0 <= i < |order| :: order[i] == KeyOf(Firsts(items)[i]))
    && (forall key :: key in locations <==> key in order)
    && forall i | 0 <= i < |order| :: order[i] in locations && locations[order[i]] == Credited(items, Firsts(items)[i])
  }

  lemma DictionaryHolds(order: seq<Key>, locations: map<Key, Evidence>, items: seq<Evidence>, key: Key)
    requires Dictionary(order, locations, items)
    ensures key in locations <==> Occurrences(items, key) > 0
  {
    if key in locations {
      var i :| 0 <= i < |order| && order[i] == key;
      FirstsAreItems(items);
      assert Firsts(items)[i] in Firsts(items);
      OccursMeansPresent(items, key);
    }
    if Occurrences(items, key) > 0 {
      EveryLocationHasFirst(items, key);
      var i :| 0 <= i < |Firsts(items)| && KeyOf(Firsts(items)[i]) == key;
      assert order[i] == key;
    }
  }

  lemma OccurrencesOneMore(items: seq<Evidence>, last: Evidence)
    ensures forall key :: Occurrences(items + [last], key) == Occurrences(items, key) + if KeyOf(last) == key then 1 else 0
    ensures Firsts(items + [last]) == Firsts(items) + if Occurrences(items, KeyOf(last)) == 0 then [last] else []
  {
    assert (items + [last])[..|items|] == items;
  }

  /** Key number i of a dictionary and what it holds. */
  ghost predicate HoldsAt(order: seq<Key>, locations: map<Key, Evidence>, items: seq<Evidence>, i: nat)
    requires i < |order| == |Firsts(items)|
  {
    order[i] == KeyOf(Firsts(items)[i]) && order[i] in locations && locations[order[i]] == Credited(items, Firsts(items)[i])
  }

  lemma NewLocationHoldsAt(order: seq<Key>, locations: map<Key, Evidence>, items: seq<Evidence>, e: Evidence, i: nat)
    requires Dictionary(order, locations, items) && KeyOf(e) !in locations && i <= |order|
    requires Occurrences(items, KeyOf(e)) == 0 && Firsts(items + [e]) == Firsts(items) + [e]
    ensures HoldsAt(order + [KeyOf(e)], locations[KeyOf(e) := e], items + [e], i)
  {
    OccurrencesOneMore(items, e);
    if i < |order| {
      assert order[i] in order && (order + [KeyOf(e)])[i] == order[i] && (Firsts(items) + [e])[i] == Firsts(items)[i];
    } else {
      assert (order + [KeyOf(e)])[i] == KeyOf(e) && (Firsts(items) + [e])[i] == e;
    }
  }

  lemma NewLocation(order: seq<Key>, locations: map<Key, Evidence>, items: seq<Evidence>, e: Evidence)
    requires Dictionary(order, locations, items) && KeyOf(e) !in locations
    ensures Dictionary(order + [KeyOf(e)], locations[KeyOf(e) := e], items + [e])
  {
    var keys, added := order + [KeyOf(e)], locations[KeyOf(e) := e];
    DictionaryHolds(order, locations, items, KeyOf(e));
    OccurrencesOneMore(items, e);
    forall i: nat | i < |keys| ensures HoldsAt(keys, added, items + [e], i) { NewLocationHoldsAt(order, locations, items, e, i); }
    forall key ensures key in added <==> key in keys { assert key in keys <==> key in order || key == KeyOf(e); }
  }

  lemma KnownLocation(order: seq<Key>, locations: map<Key, Evidence>, items: seq<Evidence>, e: Evidence)
    requires Dictionary(order, locations, items) && KeyOf(e) in locations
    ensures Dictionary(order, locations[KeyOf(e) := locations[KeyOf(e)].(contribution := FromBoth)], items + [e])
  {
    var longer, key := items + [e], KeyOf(e);
    DictionaryHolds(order, locations, items, key);
    OccurrencesOneMore(items, e);
    forall i | 0 <= i < |order|
      ensures Credited(longer, Firsts(longer)[i])
           == if order[i] == key then locations[key].(contribution := FromBoth) else locations[order[i]]
    {
    }
  }

  /** _deduplicated. */
  method Deduplicated(vector: seq<Evidence>, graph: seq<Evidence>) returns (evidence: seq<Evidence>)
    ensures evidence == Ranked(Merged(vector + graph))
  {
    var all := vector + graph;
    var order: seq<Key>, locations: map<Key, Evidence> := [], map[];
    for index := 0 to |all|
      invariant Dictionary(order, locations, all[..index])
    {
      var e := all[index];
      var key := KeyOf(e);
      assert all[..index + 1] == all[..index] + [e];
      if key !in locations {
        NewLocation(order, locations, all[..index], e);
        order := order + [key];
        locations := locations[key := e];
      } else {
        KnownLocation(order, locations, all[..index], e);
        locations := locations[key := locations[key].(contribution := FromBoth)];
      }
    }
    assert all[..|all|] == all;
    evidence := [];
    for index := 0 to |order|
      invariant evidence == Ranked(Merged(all))[..index]
    {
      var e := locations[order[index]];
      evidence := evidence + [if e.rank == index + 1 then e else e.(rank := index + 1)];
    }
  }

  /** The merged list has one item per location, in first-occurrence order, numbered from one, and otherwise untouched. */
  lemma MergeKeepsEveryLocationOnce(vector: seq<Evidence>, graph: seq<Evidence>)
    ensures var all := vector + graph;
            var result := Ranked(Merged(all));
            && |result| == |Firsts(all)|
            && (forall i | 0 <= i < |result| :: result[i].rank == i + 1 && SameBut(result[i], Firsts(all)[i]))
            && (forall i, j | 0 <= i < j < |result| :: KeyOf(result[i]) != KeyOf(result[j]))
            && (forall e | e in all :: exists i :: 0 <= i < |result| && KeyOf(result[i]) == KeyOf(e))
  {
    var all := vector + graph;
    var result := Ranked(Merged(all));
    FirstsDiffer(all);
    forall e | e in all ensures exists i :: 0 <= i < |result| && KeyOf(result[i]) == KeyOf(e) {
      OccursMeansPresent(all, KeyOf(e));
      EveryLocationHasFirst(all, KeyOf(e));
      var i :| 0 <= i < |Firsts(all)| && KeyOf(Firsts(all)[i]) == KeyOf(e);
      assert KeyOf(result[i]) == KeyOf(e);
    }
  }

  /** A location is credited to both sides exactly when it occurs at least twice in the concatenated input. */
  lemma BothExactlyOnRepetition(vector: seq<Evidence>, graph: seq<Evidence>, i: nat)
    requires i < |Ranked(Merged(vector + graph))|
    requires forall e | e in vector + graph :: e.contribution != FromBoth
    ensures var result := Ranked(Merged(vector + graph));
            && (result[i].contribution == FromBoth <==> Occurrences(vector + graph, KeyOf(result[i])) >= 2)
            && (result[i].contribution != FromBoth ==> result[i].contribution == Firsts(vector + graph)[i].contribution)
  {
    FirstsAreItems(vector + graph);
    assert Firsts(vector + graph)[i] in Firsts(vector + graph);
  }

  lemma {:induction false} FirstsOfConcat(a: seq<Evidence>, b: seq<Evidence>)
    ensures Firsts(a) <= Firsts(a + b)
  {
    if b == [] {
      assert a + b == a;
    } else {
      FirstsOfConcat(a, b[..|b| - 1]);
      assert (a + b)[..|a + b| - 1] == a + b[..|b| - 1];
    }
  }

  /** Vector locations come first, in their own order: graph evidence only appends and credits. */
  lemma VectorLocationsLead(vector: seq<Evidence>, graph: seq<Evidence>, i: nat)
    requires i < |Firsts(vector)|
    ensures i < |Ranked(Merged(vector + graph))|
    ensures SameBut(Ranked(Merged(vector + graph))[i], Firsts(vector)[i])
  {
    FirstsOfConcat(vector, graph);
  }

  // ---------------------------------------------------------------- The search and its stages

  datatype StageState = StageCompleted | NoEvidence | Unavailable | Skipped | StageFailed

  datatype Stage = Stage(name: string, state: StageState, count: nat, reason: Option<string>)

  /** What the graph side answered, as far as it was asked. */
  datatype GraphOutcome =
    | CatalogUnavailable
    | NoRelease
    | PlannerUnavailable
    | NotRelevant
    | LookupUnavailable
    | Found(evidence: seq<Evidence>, path: seq<string>, scope: Option<string>)

  function Contributed(items: seq<Evidence>, contribution: Contribution): seq<Evidence> {
    seq(|items|, i requires 0 <= i < |items| => items[i].(contribution := contribution))
  }

  function VectorStage(items: seq<Evidence>): Stage {
    Stage("vector", if items == [] then NoEvidence else StageCompleted, |items|, None)
  }

  /** The planning and graph stages of each outcome. */
  function GraphStages(outcome: GraphOutcome): seq<Stage> {
    match outcome
    case CatalogUnavailable =>
      [Stage("planning", Unavailable, 0, Some("graph_unavailable")), Stage("graph", Unavailable, 0, Some("graph_unavailable"))]
    case NoRelease =>
      [Stage("planning", Skipped, 0, Some("graph_release_unavailable")), Stage("graph", Skipped, 0, Some("graph_release_unavailable"))]
    case PlannerUnavailable =>
      [Stage("planning", StageFailed, 0, Some("planner_unavailable")), Stage("graph", Skipped, 0, Some("planner_unavailable"))]
    case NotRelevant =>
      [Stage("planning", Skipped, 0, Some("not_relevant")), Stage("graph", Skipped, 0, Some("not_relevant"))]
    case LookupUnavailable =>
      [Stage("planning", StageCompleted, 0, None), Stage("graph", Unavailable, 0, Some("graph_unavailable"))]
    case Found(evidence, _, _) =>
      [Stage("planning", StageCompleted, 0, None),
       if evidence == [] then Stage("graph", NoEvidence, 0, Some("no_assertion_evidence"))
       else Stage("graph", StageCompleted, |evidence|, None)]
  }

  function GraphEvidenceOf(outcome: GraphOutcome): seq<Evidence> {
    if outcome.Found? then Contributed(outcome.evidence, FromGraph) else []
  }

  /** Exactly the three stages, by name and in order. */
  predicate ThreeStages(stages: seq<Stage>) {
    |stages| == 3 && stages[0].name == "vector" && stages[1].name == "planning" && stages[2].name == "graph"
  }

  /** What the three stages report: how much each side found, how far the search came, and a reason exactly where it stopped. */
  predicate StagesReport(vector: seq<Evidence>, outcome: GraphOutcome, stages: seq<Stage>) {
    && ThreeStages(stages)
    && stages[0].count == |vector| && stages[0].state == (if vector == [] then NoEvidence else StageCompleted) && stages[0].reason.None?
    && stages[1].count == 0 && (stages[1].state == StageCompleted <==> outcome.LookupUnavailable? || outcome.Found?)
    && stages[2].count == (if outcome.Found? then |outcome.evidence| else 0)
    && (stages[2].state == StageCompleted <==> outcome.Found? && outcome.evidence != [])
    && (forall n | 1 <= n < 3 :: stages[n].reason.None? <==> stages[n].state == StageCompleted)
    && (stages[1].state != StageCompleted ==> stages[2].state != StageCompleted && stages[2].reason == stages[1].reason)
    && (stages[1].state == Unavailable <==> outcome.CatalogUnavailable?)
    && (stages[1].state == StageFailed <==> outcome.PlannerUnavailable?)
    && (stages[2].state == Unavailable <==> outcome.CatalogUnavailable? || outcome.LookupUnavailable?)
    && (stages[2].state == NoEvidence <==> outcome.Found? && outcome.evidence == [])
  }

  lemma StagesFollowOutcome(vector: seq<Evidence>, outcome: GraphOutcome)
    ensures StagesReport(vector, outcome, [VectorStage(vector)] + GraphStages(outcome))
  {
    var stages := GraphStages(outcome);
    assert |stages| == 2 && [VectorStage(vector)] + stages == [VectorStage(vector), stages[0], stages[1]];
  }

  class HybridRetriever {
    var lastCount: Option<nat>
    var lastAssertionPath: seq<string>
    var lastScopeLocator: Option<string>
    var lastStages: seq<Stage>

    constructor ()
      ensures lastCount == None && lastAssertionPath == [] && lastScopeLocator == None && lastStages == []
    {
      lastCount, lastAssertionPath, lastScopeLocator, lastStages := None, [], None, [];
    }

    /** _graph_evidence: extends the stages on every branch and remembers the path of a completed lookup only. */
    method GraphEvidence(outcome: GraphOutcome, started: seq<Stage>) returns (evidence: seq<Evidence>, stages: seq<Stage>)
      modifies `lastAssertionPath, `lastScopeLocator
      ensures stages == started + GraphStages(outcome) && evidence == GraphEvidenceOf(outcome)
      ensures outcome.Found? ==> lastAssertionPath == outcome.path && lastScopeLocator == outcome.scope
      ensures !outcome.Found? ==> lastAssertionPath == old(lastAssertionPath) && lastScopeLocator == old(lastScopeLocator)
    {
      stages, evidence := started, [];
      if outcome.CatalogUnavailable? {
        stages := stages + [Stage("planning", Unavailable, 0, Some("graph_unavailable")),
                            Stage("graph", Unavailable, 0, Some("graph_unavailable"))];
        return;
      }
      if outcome.NoRelease? {
        stages := stages + [Stage("planning", Skipped, 0, Some("graph_release_unavailable")),
                            Stage("graph", Skipped, 0, Some("graph_release_unavailable"))];
        return;
      }
      if outcome.PlannerUnavailable? {
        stages := stages + [Stage("planning", StageFailed, 0, Some("planner_unavailable")),
                            Stage("graph", Skipped, 0, Some("planner_unavailable"))];
        return;
      }
      var useGraph := !outcome.NotRelevant?;
      stages := stages + [Stage("planning", if useGraph then StageCompleted else Skipped, 0,
                                if useGraph then None else Some("not_relevant"))];
      if !useGraph {
        stages := stages + [Stage("graph", Skipped, 0, Some("not_relevant"))];
        return;
      }
      if outcome.LookupUnavailable? {
        stages := stages + [Stage("graph", Unavailable, 0, Some("graph_unavailable"))];
        return;
      }
      evidence := Contributed(outcome.evidence, FromGraph);
      lastAssertionPath, lastScopeLocator := outcome.path, outcome.scope;
      stages := stages + [Stage("graph", if evidence == [] then NoEvidence else StageCompleted, |evidence|,
                                if evidence == [] then Some("no_assertion_evidence") else None)];
    }

    /** None stands for a raised error: a wrong strategy, or a failed vector search. */
    method Search(strategy: string, vectorResult: Option<seq<Evidence>>, outcome: GraphOutcome) returns (evidence: Option<seq<Evidence>>)
      modifies this
      ensures evidence.Some? <==> strategy == "hybrid" && vectorResult.Some?
      ensures evidence.Some? ==>
                var vector := Contributed(vectorResult.value, FromVector);
                && evidence.value == Ranked(Merged(vector + GraphEvidenceOf(outcome)))
                && StagesReport(vector, outcome, lastStages) && lastStages == [VectorStage(vector)] + GraphStages(outcome)
                && lastCount == Some(|evidence.value|)
                && lastAssertionPath == (if outcome.Found? then outcome.path else [])
                && lastScopeLocator == (if outcome.Found? then outcome.scope else None)
      ensures evidence.None? ==> lastStages == old(lastStages) && lastCount == old(lastCount)
      ensures strategy != "hybrid" ==> lastAssertionPath == old(lastAssertionPath) && lastScopeLocator == old(lastScopeLocator)
      ensures strategy == "hybrid" && vectorResult.None? ==> lastAssertionPath == [] && lastScopeLocator.None?
    {
      if strategy != "hybrid" {
        return None;
      }
      lastAssertionPath, lastScopeLocator := [], None;
      if vectorResult.None? {
        return None;
      }
      var vector := Contributed(vectorResult.value, FromVector);
      var stages := [VectorStage(vector)];
      var graph;
      graph, stages := GraphEvidence(outcome, stages);
      var merged := Deduplicated(vector, graph);
      lastCount := Some(|merged|);
      lastStages := stages;
      StagesFollowOutcome(vector, outcome);
      evidence := Some(merged);
    }
  }

  /** When the graph contributes nothing, the search is the vector search, each location once and renumbered. */
  lemma WithoutGraphVectorStands(vector: seq<Evidence>, outcome: GraphOutcome)
    requires !outcome.Found? && forall i, j | 0 <= i < j < |vector| :: KeyOf(vector[i]) != KeyOf(vector[j])
    ensures Ranked(Merged(Contributed(vector, FromVector) + GraphEvidenceOf(outcome))) == Ranked(Contributed(vector, FromVector))
  {
    var items := Contributed(vector, FromVector);
    assert items + [] == items;
    forall i, j | 0 <= i < j < |items| ensures KeyOf(items[i]) != KeyOf(items[j]) {
      assert KeyOf(vector[i]) != KeyOf(vector[j]);
    }
    DistinctMergeUnchanged(items);
  }

  lemma {:induction false} DistinctOccurOnce(items: seq<Evidence>, key: Key)
    requires forall i, j | 0 <= i < j < |items| :: KeyOf(items[i]) != KeyOf(items[j])
    ensures Occurrences(items, key) <= 1
    ensures Firsts(items) == items
    ensures (forall i | 0 <= i < |items| :: KeyOf(items[i]) != key) ==> Occurrences(items, key) == 0
  {
    if items != [] {
      var earlier, last := items[..|items| - 1], items[|items| - 1];
      DistinctOccurOnce(earlier, key);
      DistinctOccurOnce(earlier, KeyOf(last));
      assert items == earlier + [last];
    }
  }

  lemma DistinctMergeUnchanged(items: seq<Evidence>)
    requires forall i, j | 0 <= i < j < |items| :: KeyOf(items[i]) != KeyOf(items[j])
    ensures Merged(items) == items
  {
    forall i | 0 <= i < |items| ensures Firsts(items) == items && Credited(items, items[i]) == items[i] {
      DistinctOccurOnce(items, KeyOf(items[i]));
    }
    if items == [] {
      assert Firsts(items) == [];
    }
  }

  // ---------------------------------------------------------------- Who is credited

  function GraphFound(outcome: GraphOutcome): seq<Evidence> {
    if outcome.Found? then outcome.evidence else []
  }

  lemma {:induction false} ContributedOccurrences(items: seq<Evidence>, contribution: Contribution, key: Key)
    ensures Occurrences(Contributed(items, contribution), key) == Occurrences(items, key)
  {
    if items != [] {
      var earlier := items[..|items| - 1];
      assert Contributed(items, contribution) == Contributed(earlier, contribution) + [items[|items| - 1].(contribution := contribution)];
      ContributedOccurrences(earlier, contribution, key);
    }
  }

  lemma {:induction false} OccurrencesConcat(a: seq<Evidence>, b: seq<Evidence>, key: Key)
    ensures Occurrences(a + b, key) == Occurrences(a, key) + Occurrences(b, key)
  {
    if b == [] {
      assert a + b == a;
    } else {
      OccurrencesConcat(a, b[..|b| - 1], key);
      assert (a + b)[..|a + b| - 1] == a + b[..|b| - 1];
    }
  }

  /** How often the two sides found a location. */
  function Hits(vector: seq<Evidence>, graph: seq<Evidence>, key: Key): nat {
    Occurrences(vector, key) + Occurrences(graph, key)
  }

  /** Item e of the answer is credited to both sides when they found its location more than once, else to the side that did. */
  predicate CreditedTo(e: Evidence, vector: seq<Evidence>, graph: seq<Evidence>) {
    var key := KeyOf(e);
    && (e.contribution == FromBoth <==> Hits(vector, graph, key) >= 2)
    && (e.contribution == FromVector <==> Occurrences(vector, key) == 1 && Occurrences(graph, key) == 0)
    && (e.contribution == FromGraph <==> Occurrences(vector, key) == 0 && Occurrences(graph, key) == 1)
  }

  /** The item was found by one of the sides, and is that item but for its rank and credit. */
  ghost predicate FoundBy(e: Evidence, vector: seq<Evidence>, graph: seq<Evidence>) {
    exists found :: (found in vector || found in graph) && SameBut(e, found)
  }

  lemma MergedItem(items: seq<Evidence>, i: nat)
    requires i < |Ranked(Merged(items))|
    ensures i < |Firsts(items)| && Firsts(items)[i] in items
    ensures var e, first := Ranked(Merged(items))[i], Firsts(items)[i];
            && KeyOf(e) == KeyOf(first) && SameBut(e, first)
            && e.contribution == if Occurrences(items, KeyOf(first)) >= 2 then FromBoth else first.contribution
  {
    FirstsAreItems(items);
    assert Firsts(items)[i] in Firsts(items);
  }

  lemma ContributedHas(items: seq<Evidence>, contribution: Contribution, e: Evidence)
    requires e in Contributed(items, contribution)
    ensures e.contribution == contribution && Occurrences(items, KeyOf(e)) >= 1
    ensures exists original :: original in items && SameBut(e, original)
  {
    var i :| 0 <= i < |items| && Contributed(items, contribution)[i] == e;
    assert items[i] in items && SameBut(e, items[i]) && KeyOf(items[i]) == KeyOf(e);
    PresentOccurs(items, i);
  }

  lemma {:induction false} PresentOccurs(items: seq<Evidence>, i: nat)
    requires i < |items|
    ensures Occurrences(items, KeyOf(items[i])) >= 1
  {
    if i < |items| - 1 {
      PresentOccurs(items[..|items| - 1], i);
    }
  }

  /**
   Every item of an answer is one that the vector search or the graph found, credited to the side that found it, and to
   both exactly when its location was found more than once.
   */
  lemma AnswerCreditsItsSides(vector: seq<Evidence>, outcome: GraphOutcome, i: nat)
    requires i < |Ranked(Merged(Contributed(vector, FromVector) + GraphEvidenceOf(outcome)))|
    ensures var e := Ranked(Merged(Contributed(vector, FromVector) + GraphEvidenceOf(outcome)))[i];
            e.rank == i + 1 && CreditedTo(e, vector, GraphFound(outcome)) && FoundBy(e, vector, GraphFound(outcome))
  {
    var left, right := Contributed(vector, FromVector), GraphEvidenceOf(outcome);
    assert right == Contributed(GraphFound(outcome), FromGraph);
    var items := left + right;
    MergedItem(items, i);
    var e, first := Ranked(Merged(items))[i], Firsts(items)[i];
    OccurrencesConcat(left, right, KeyOf(e));
    ContributedOccurrences(vector, FromVector, KeyOf(e));
    ContributedOccurrences(GraphFound(outcome), FromGraph, KeyOf(e));
    if first in left {
      ContributedHas(vector, FromVector, first);
      var original :| original in vector && SameBut(first, original);
      assert SameBut(e, original);
    } else {
      ContributedHas(GraphFound(outcome), FromGraph, first);
      var original :| original in GraphFound(outcome) && SameBut(first, original);
      assert SameBut(e, original);
    }
  }
}
