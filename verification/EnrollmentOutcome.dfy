/**
 * What a finished enrolment holds: the templates are the best admissible choice of every
 * pose group, and every observed sample is published exactly once.
 */
module EnrollmentOutcome {
  import opened Wrappers
  import opened Embeddings
  import opened FaceEngine
  import opened Quality
  import opened EnrollmentSteps
  import opened StableSort
  import opened GreedySelection
  import opened TemplateSelection
  import opened GuidedEnrollment

  // ----- the best choice of every group -----

  /** The ranked candidates at the given positions, in order, among the first `n`. */
  function Picked(ranked: seq<CandidateSample>, positions: set<nat>, n: nat): seq<CandidateSample>
    requires n <= |ranked|
  {
    if n == 0 then []
    else Picked(ranked, positions, n - 1) + if n - 1 in positions then [ranked[n - 1]] else []
  }

  lemma KeptForGood<T>(same: (T, T) -> bool, items: seq<T>, cap: nat, i: nat)
    requires i < |items|
    ensures i in Greedy(same, items, cap, i + 1) <==> i in GreedySet(same, items, cap)
  {
    GreedyPrefix(same, items, cap, i + 1, |items|);
  }

  lemma {:induction false} ChosenIsPicked(rule: SimilarityRule, ranked: seq<CandidateSample>, cap: nat, n: nat)
    requires n <= |ranked|
    ensures ChosenAmong(rule, ranked, cap, n) == Picked(ranked, GreedySet(Same(rule), ranked, cap), n)
  {
    if n > 0 {
      ChosenIsPicked(rule, ranked, cap, n - 1);
      KeptForGood(Same(rule), ranked, cap, n - 1);
    }
  }

  /** The templates of a group among those chosen from several groups. */
  lemma {:induction false} TemplatesOfOneGroup(rule: SimilarityRule, stored: Store, groups: seq<FacePoseGroup>, group: FacePoseGroup)
    requires WellStored(stored) && Distinct(groups)
    ensures Filter(InGroup(group), Templates(Chosen(rule, stored, groups))) ==
            if group in GroupSet(groups) then Templates(ChosenOf(rule, stored, group)) else []
  {
    if groups == [] {
      assert Templates(Chosen(rule, stored, groups)) == [];
    } else {
      LastIsNew(groups);
      TemplatesOfOneGroup(rule, stored, groups[..|groups| - 1], group);
      TemplatesOfOneMoreGroup(rule, stored, groups, group);
    }
  }

  lemma TemplatesOfOneMoreGroup(rule: SimilarityRule, stored: Store, groups: seq<FacePoseGroup>, group: FacePoseGroup)
    requires WellStored(stored) && groups != []
    ensures var before := Filter(InGroup(group), Templates(Chosen(rule, stored, groups[..|groups| - 1])));
            var after := Filter(InGroup(group), Templates(Chosen(rule, stored, groups)));
            if group != groups[|groups| - 1] then after == before
            else before == [] ==> after == Templates(ChosenOf(rule, stored, group))
  {
    var init, last := groups[..|groups| - 1], groups[|groups| - 1];
    FilterTemplates(group, Chosen(rule, stored, init), ChosenOf(rule, stored, last));
    TemplatesOfTheLast(rule, stored, last, group);
  }

  lemma LastIsNew(groups: seq<FacePoseGroup>)
    requires Distinct(groups) && groups != []
    ensures Distinct(groups[..|groups| - 1]) && groups[|groups| - 1] !in GroupSet(groups[..|groups| - 1])
  {
    GroupSetHolds(groups[..|groups| - 1], groups[|groups| - 1]);
  }

  lemma FilterTemplates(group: FacePoseGroup, a: seq<CandidateSample>, b: seq<CandidateSample>)
    ensures Filter(InGroup(group), Templates(a + b)) ==
            Filter(InGroup(group), Templates(a)) + Filter(InGroup(group), Templates(b))
  {
    TemplatesAppend(a, b);
    FilterSplits(InGroup(group), Templates(a), Templates(b));
  }

  lemma TemplatesOfTheLast(rule: SimilarityRule, stored: Store, last: FacePoseGroup, group: FacePoseGroup)
    requires WellStored(stored)
    ensures var templates := Templates(ChosenOf(rule, stored, last));
            Filter(InGroup(group), templates) == if group == last then templates else []
  {
    var chosen := ChosenOf(rule, stored, last);
    ChosenAreOfTheGroup(rule, stored, last);
    forall i | 0 <= i < |chosen| ensures Templates(chosen)[i].poseGroup == last {
      TemplatesAt(chosen, i);
    }
    if group == last {
      FilterEverything(InGroup(group), Templates(chosen));
    } else {
      FilterNothing(InGroup(group), Templates(chosen));
    }
  }

  /** The candidates of a group as finishing ranks them. */
  function RankedCandidates(history: History, group: FacePoseGroup): seq<CandidateSample> {
    Ranked(CandidatesOf(history, group))
  }

  predicate BestFirst(ranked: seq<CandidateSample>) {
    forall i, j :: 0 <= i < j < |ranked| ==> ranked[i].metadata.quality.qualityScore >= ranked[j].metadata.quality.qualityScore
  }

  /** The ranking: the group's candidates, best quality first, equal quality in the order of arrival. */
  lemma RankingIsByQuality(history: History, group: FacePoseGroup)
    ensures var ranked := RankedCandidates(history, group);
            && multiset(ranked) == multiset(CandidatesOf(history, group))
            && BestFirst(ranked)
            && forall k: real ::
                 Filter(WithKey(WorseQuality, k), ranked) == Filter(WithKey(WorseQuality, k), CandidatesOf(history, group))
  {
    var candidates := CandidatesOf(history, group);
    SortIsAPermutation(WorseQuality, candidates);
    var ranked := Ranked(candidates);
    forall i, j | 0 <= i < j < |ranked|
      ensures ranked[i].metadata.quality.qualityScore >= ranked[j].metadata.quality.qualityScore
    {
      assert WorseQuality(ranked[i]) <= WorseQuality(ranked[j]);
    }
    forall k: real ensures Filter(WithKey(WorseQuality, k), ranked) == Filter(WithKey(WorseQuality, k), candidates) {
      SortIsStable(WorseQuality, candidates, k);
    }
  }

  /** The templates that a finished set has of one group. */
  function TemplatesOf(templateSet: FaceTemplateSet, group: FacePoseGroup): seq<FaceTemplate> {
    Filter(InGroup(group), templateSet.templates)
  }

  lemma TemplatesOfGroup(config: Config, rule: SimilarityRule, model: FaceModelDescriptor, enrolment: Enrolment,
                         history: History, group: FacePoseGroup)
    requires SoundHistory(config, history) && group in UNLOCK_GROUPS
    ensures var templateSet, ranked := TemplateSetOf(config, rule, model, enrolment, history), RankedCandidates(history, group);
            TemplatesOf(templateSet, group) ==
            Templates(Picked(ranked, GreedySet(Same(rule), ranked, TargetTemplateCount(group)), |ranked|))
  {
    var ranked := RankedCandidates(history, group);
    HistoriesAreWellStored(config, history);
    UnlockGroupsAreDistinct();
    TemplatesOfOneGroup(rule, StoreOf(history), UNLOCK_GROUPS, group);
    StoreHoldsTheCandidates(history, group);
    ChosenIsPicked(rule, ranked, TargetTemplateCount(group), |ranked|);
  }

  /** Some admissible choice from the ranking is lexicographically first. */
  lemma BestChoiceExists(rule: SimilarityRule, ranked: seq<CandidateSample>, cap: nat)
    ensures exists best: set<nat> ::
              Admissible(Same(rule), ranked, cap, best) && LexicographicallyFirst(Same(rule), ranked, cap, best)
  {
    var best := GreedySet(Same(rule), ranked, cap);
    GreedyIsAdmissible(Same(rule), ranked, cap);
    forall other: set<nat>, i: nat |
      Admissible(Same(rule), ranked, cap, other) && i in other && Below(other, i) == Below(best, i)
      ensures i in best
    {
      GreedyIsFirst(Same(rule), ranked, cap, other, i);
    }
  }

  /**
   * Finishing chooses optimally: the templates of a group are those at the positions of the
   * lexicographically first choice from the ranking that fits the group's target and holds
   * no duplicate.
   */
  lemma FinishChoosesOptimally(config: Config, rule: SimilarityRule, model: FaceModelDescriptor, enrolment: Enrolment,
                               history: History, group: FacePoseGroup, best: set<nat>)
    requires SoundHistory(config, history) && group in UNLOCK_GROUPS
    requires Admissible(Same(rule), RankedCandidates(history, group), TargetTemplateCount(group), best)
    requires LexicographicallyFirst(Same(rule), RankedCandidates(history, group), TargetTemplateCount(group), best)
    ensures var templateSet, ranked := TemplateSetOf(config, rule, model, enrolment, history), RankedCandidates(history, group);
            TemplatesOf(templateSet, group) == Templates(Picked(ranked, best, |ranked|))
  {
    TemplatesOfGroup(config, rule, model, enrolment, history, group);
    FirstIsUnique(Same(rule), RankedCandidates(history, group), TargetTemplateCount(group), best);
  }

  /** A kept candidate in front of position `i` makes it a duplicate and has at least its quality. */
  ghost predicate RepeatsABetterOne(rule: SimilarityRule, ranked: seq<CandidateSample>, kept: set<nat>, i: nat)
    requires i < |ranked|
  {
    exists k :: k in kept && k < i && rule.TooSimilar(ranked[k].template, ranked[i].template)
                && ranked[k].metadata.quality.qualityScore >= ranked[i].metadata.quality.qualityScore
  }

  /**
   * A candidate that the best choice leaves out either found the group full, or is a
   * duplicate of a kept one whose quality is at least its own; the best one is never left out.
   */
  lemma LeftOutWithReason(rule: SimilarityRule, history: History, group: FacePoseGroup, best: set<nat>, i: nat)
    requires group in UNLOCK_GROUPS && i < |RankedCandidates(history, group)| && i !in best
    requires Admissible(Same(rule), RankedCandidates(history, group), TargetTemplateCount(group), best)
    requires LexicographicallyFirst(Same(rule), RankedCandidates(history, group), TargetTemplateCount(group), best)
    ensures var ranked := RankedCandidates(history, group);
            && i > 0
            && (|best| == |Below(best, i)| == TargetTemplateCount(group) || RepeatsABetterOne(rule, ranked, best, i))
  {
    hide BestFirst, RepeatsABetterOne, Ranked, Admissible, LexicographicallyFirst;
    var ranked, cap := RankedCandidates(history, group), TargetTemplateCount(group);
    FirstIsUnique(Same(rule), ranked, cap, best);
    RankingIsByQuality(history, group);
    LeftOutOf(rule, ranked, cap, best, i);
  }

  lemma LeftOutOf(rule: SimilarityRule, ranked: seq<CandidateSample>, cap: nat, best: set<nat>, i: nat)
    requires i < |ranked| && cap > 0 && best == GreedySet(Same(rule), ranked, cap) && i !in best && BestFirst(ranked)
    ensures i > 0
    ensures |best| == |Below(best, i)| == cap || RepeatsABetterOne(rule, ranked, best, i)
  {
    WhyLeftOut(Same(rule), ranked, cap, i);
    if |Below(best, i)| == cap {
      SubsetIsNoLarger(Below(best, i), best);
      GreedyFits(rule, ranked, cap);
    } else {
      var k :| k in best && k < i && Same(rule)(ranked[k], ranked[i]);
      assert rule.TooSimilar(ranked[k].template, ranked[i].template);
    }
  }

  lemma GreedyFits(rule: SimilarityRule, ranked: seq<CandidateSample>, cap: nat)
    ensures |GreedySet(Same(rule), ranked, cap)| <= cap
  {
    GreedyIsAdmissible(Same(rule), ranked, cap);
  }

  /** No published template of a group duplicates another of the group with at least its quality. */
  lemma PublishedTemplatesAreDistinct(config: Config, rule: SimilarityRule, model: FaceModelDescriptor, enrolment: Enrolment,
                                      history: History, group: FacePoseGroup, i: nat, j: nat)
    requires SoundHistory(config, history) && group in UNLOCK_GROUPS
    requires i < j < |TemplatesOf(TemplateSetOf(config, rule, model, enrolment, history), group)|
    ensures var templates := TemplatesOf(TemplateSetOf(config, rule, model, enrolment, history), group);
            !rule.TooSimilar(templates[i], templates[j])
  {
    hide TemplateSetOf, SoundHistory, Ranked;
    var ranked, cap := RankedCandidates(history, group), TargetTemplateCount(group);
    TemplatesOfGroup(config, rule, model, enrolment, history, group);
    ChosenIsPicked(rule, ranked, cap, |ranked|);
    ChosenAreDifferent(rule, ranked, cap, i, j);
  }

  lemma ChosenAreDifferent(rule: SimilarityRule, ranked: seq<CandidateSample>, cap: nat, i: nat, j: nat)
    requires i < j < |ChosenAmong(rule, ranked, cap, |ranked|)|
    ensures var templates := Templates(ChosenAmong(rule, ranked, cap, |ranked|)); !rule.TooSimilar(templates[i], templates[j])
  {
    var positions, chosen := Greedy(Same(rule), ranked, cap, |ranked|), ChosenAmong(rule, ranked, cap, |ranked|);
    GreedyIsAdmissible(Same(rule), ranked, cap);
    GreedyIncreases(Same(rule), ranked, cap, |ranked|);
    ChosenAt(rule, ranked, cap, |ranked|, i);
    ChosenAt(rule, ranked, cap, |ranked|, j);
    TemplatesAt(chosen, i);
    TemplatesAt(chosen, j);
    assert positions[i] in GreedySet(Same(rule), ranked, cap) && positions[j] in GreedySet(Same(rule), ranked, cap);
    assert !Same(rule)(ranked[positions[i]], ranked[positions[j]]);
  }

  // ----- the choice in terms of the embeddings -----

  /** Templates count as too similar exactly within the angle that the threshold stands for. */
  lemma SimilarityIsAnAngle(rule: SimilarityRule, a: FaceTemplate, b: FaceTemplate)
    requires IsSquareRoot(rule.sqrt)
    ensures rule.TooSimilar(a, b) <==> WithinAngle(rule.sqrt, a.embedding, b.embedding, rule.threshold)
  {
    CosineMeasuresTheAngle(rule.sqrt, a.embedding, b.embedding, rule.threshold);
  }

  /** Any two published templates of a group, if comparable, are further apart than the threshold's angle. */
  lemma PublishedEmbeddingsDiffer(config: Config, rule: SimilarityRule, model: FaceModelDescriptor, enrolment: Enrolment,
                                  history: History, group: FacePoseGroup, i: nat, j: nat)
    requires SoundHistory(config, history) && group in UNLOCK_GROUPS && IsSquareRoot(rule.sqrt)
    requires i < j < |TemplatesOf(TemplateSetOf(config, rule, model, enrolment, history), group)|
    ensures var templates := TemplatesOf(TemplateSetOf(config, rule, model, enrolment, history), group);
            var a, b := templates[i].embedding, templates[j].embedding;
            Comparable(a, b) ==> Dot(a, b) < rule.threshold * (Length(rule.sqrt, a) * Length(rule.sqrt, b))
  {
    hide TemplateSetOf, SoundHistory;
    var templates := TemplatesOf(TemplateSetOf(config, rule, model, enrolment, history), group);
    PublishedTemplatesAreDistinct(config, rule, model, enrolment, history, group, i, j);
    SimilarityIsAnAngle(rule, templates[i], templates[j]);
  }

  /** With a threshold of at most one, no published template of a group is a positive multiple of an earlier one. */
  lemma NoMultipleIsPublished(config: Config, rule: SimilarityRule, model: FaceModelDescriptor, enrolment: Enrolment,
                              history: History, group: FacePoseGroup, i: nat, j: nat, factor: real)
    requires SoundHistory(config, history) && group in UNLOCK_GROUPS && IsSquareRoot(rule.sqrt)
    requires rule.threshold <= 1.0 && factor > 0.0
    requires i < j < |TemplatesOf(TemplateSetOf(config, rule, model, enrolment, history), group)|
    ensures var templates := TemplatesOf(TemplateSetOf(config, rule, model, enrolment, history), group);
            (exists k :: 0 <= k < |templates[i].embedding| && templates[i].embedding[k] != 0.0) ==>
              templates[j].embedding != Scale(factor, templates[i].embedding)
  {
    hide TemplateSetOf, SoundHistory;
    var templates := TemplatesOf(TemplateSetOf(config, rule, model, enrolment, history), group);
    var v := templates[i].embedding;
    if (exists k :: 0 <= k < |v| && v[k] != 0.0) && templates[j].embedding == Scale(factor, v) {
      MultiplesAreWithinAnyAngle(rule.sqrt, factor, v, rule.threshold);
      PublishedEmbeddingsDiffer(config, rule, model, enrolment, history, group, i, j);
    }
  }

  lemma {:induction false} PickedHolds(ranked: seq<CandidateSample>, positions: set<nat>, n: nat, i: nat)
    requires i < n <= |ranked| && i in positions
    ensures ranked[i].template in Templates(Picked(ranked, positions, n))
  {
    if i < n - 1 {
      PickedHolds(ranked, positions, n - 1, i);
      TemplatesAppend(Picked(ranked, positions, n - 1), if n - 1 in positions then [ranked[n - 1]] else []);
      assert Picked(ranked, positions, n - 1) + [] == Picked(ranked, positions, n - 1);
    }
  }

  /** A published template of the group is at least as good as the candidate and within the threshold's angle of it. */
  ghost predicate ResemblesABetterOne(rule: SimilarityRule, published: seq<FaceTemplate>, c: CandidateSample) {
    exists t :: t in published && t.qualityScore.Some? && t.qualityScore.value >= c.metadata.quality.qualityScore
                && WithinAngle(rule.sqrt, t.embedding, c.template.embedding, rule.threshold)
  }

  /**
   * A candidate whose template is not published found its group full, or is within the
   * threshold's angle of a published template of at least its quality.
   */
  lemma UnpublishedCandidatesResemble(config: Config, rule: SimilarityRule, model: FaceModelDescriptor, enrolment: Enrolment,
                                      history: History, group: FacePoseGroup, c: CandidateSample)
    requires SoundHistory(config, history) && group in UNLOCK_GROUPS && IsSquareRoot(rule.sqrt)
    requires c in CandidatesOf(history, group)
    requires c.template !in TemplatesOf(TemplateSetOf(config, rule, model, enrolment, history), group)
    ensures var published := TemplatesOf(TemplateSetOf(config, rule, model, enrolment, history), group);
            |published| == (if group.PitchDownMild? || group.PitchUpMild? then 1 else 2) || ResemblesABetterOne(rule, published, c)
  {
    hide TemplateSetOf, SoundHistory, Ranked, BestFirst, Honest, ResemblesABetterOne, InGroup, Filter;
    var ranked, cap := RankedCandidates(history, group), TargetTemplateCount(group);
    TemplatesOfGroup(config, rule, model, enrolment, history, group);
    RankingIsByQuality(history, group);
    var i := PlaceInRanking(history, group, c);
    RankedAreHonest(config, history, group);
    UnpublishedAt(rule, ranked, cap, i);
  }

  lemma PlaceInRanking(history: History, group: FacePoseGroup, c: CandidateSample) returns (i: nat)
    requires c in CandidatesOf(history, group)
    ensures i < |RankedCandidates(history, group)| && RankedCandidates(history, group)[i] == c
  {
    SortIsAPermutation(WorseQuality, CandidatesOf(history, group));
    assert c in multiset(RankedCandidates(history, group));
    i :| 0 <= i < |RankedCandidates(history, group)| && RankedCandidates(history, group)[i] == c;
  }

  /** Templates carry the quality of their samples. */
  predicate Honest(candidates: seq<CandidateSample>) {
    forall i :: 0 <= i < |candidates| ==> candidates[i].template.qualityScore == Some(candidates[i].metadata.quality.qualityScore)
  }

  lemma RankedAreHonest(config: Config, history: History, group: FacePoseGroup)
    requires SoundHistory(config, history) && group in UNLOCK_GROUPS
    ensures Honest(RankedCandidates(history, group))
  {
    CandidatesAreFit(config, history, group);
    RankedAreFit(config, CandidatesOf(history, group));
    assert forall i :: 0 <= i < |RankedCandidates(history, group)| ==> FitForUnlock(config, RankedCandidates(history, group)[i]);
  }

  lemma UnpublishedAt(rule: SimilarityRule, ranked: seq<CandidateSample>, cap: nat, i: nat)
    requires i < |ranked| && cap > 0 && BestFirst(ranked) && Honest(ranked) && IsSquareRoot(rule.sqrt)
    requires ranked[i].template !in Templates(Picked(ranked, GreedySet(Same(rule), ranked, cap), |ranked|))
    ensures var published := Templates(Picked(ranked, GreedySet(Same(rule), ranked, cap), |ranked|));
            |published| == cap || ResemblesABetterOne(rule, published, ranked[i])
  {
    var best := GreedySet(Same(rule), ranked, cap);
    if i in best {
      PickedHolds(ranked, best, |ranked|, i);
    }
    LeftOutOf(rule, ranked, cap, best, i);
    if |best| == cap {
      ChosenIsPicked(rule, ranked, cap, |ranked|);
      BelowIsPrefix(Same(rule), ranked, cap, |ranked|);
      assert Below(best, |ranked|) == best;
    } else {
      var k :| k in best && k < i && rule.TooSimilar(ranked[k].template, ranked[i].template)
               && ranked[k].metadata.quality.qualityScore >= ranked[i].metadata.quality.qualityScore;
      PickedHolds(ranked, best, |ranked|, k);
      SimilarityIsAnAngle(rule, ranked[k].template, ranked[i].template);
    }
  }

  // ----- how many templates there are -----

  /** A group has at most its target of templates, and at least one as soon as it has a candidate. */
  lemma TemplatesPerGroup(config: Config, rule: SimilarityRule, model: FaceModelDescriptor, enrolment: Enrolment,
                          history: History, group: FacePoseGroup)
    requires SoundHistory(config, history) && group in UNLOCK_GROUPS
    ensures var count := |TemplatesOf(TemplateSetOf(config, rule, model, enrolment, history), group)|;
            count <= TargetTemplateCount(group) && (count > 0 <==> CandidatesOf(history, group) != [])
  {
    hide TemplateSetOf, SoundHistory, Ranked;
    var ranked, cap := RankedCandidates(history, group), TargetTemplateCount(group);
    TemplatesOfGroup(config, rule, model, enrolment, history, group);
    ChosenIsPicked(rule, ranked, cap, |ranked|);
    ChosenFits(rule, ranked, cap);
  }

  lemma ChosenFits(rule: SimilarityRule, ranked: seq<CandidateSample>, cap: nat)
    requires cap > 0
    ensures |ChosenAmong(rule, ranked, cap, |ranked|)| <= cap
    ensures |ChosenAmong(rule, ranked, cap, |ranked|)| > 0 <==> ranked != []
  {
    GreedyRespectsCap(Same(rule), ranked, cap, |ranked|);
    if ranked != [] {
      GreedyPrefix(Same(rule), ranked, cap, 1, |ranked|);
      assert |Greedy(Same(rule), ranked, cap, 1)| == 1;
    }
  }

  /** The steps never produce a frontal variant. */
  lemma {:induction false} NoFrontalVariants(history: History)
    ensures CandidatesOf(history, FacePoseGroup.FrontalVariant) == []
  {
    if history != [] {
      NoFrontalVariants(history[..|history| - 1]);
    }
  }

  lemma ChosenFitsTarget(rule: SimilarityRule, stored: Store, group: FacePoseGroup)
    ensures |ChosenOf(rule, stored, group)| <= TargetTemplateCount(group)
  {
    var ranked := Ranked(CandidatesIn(stored, group));
    GreedyRespectsCap(Same(rule), ranked, TargetTemplateCount(group), |ranked|);
  }

  /** How many templates the first so many unlock groups yield at most, without frontal variants. */
  const LIMITS: seq<nat> := [0, 2, 2, 4, 6, 7, 8]

  lemma OneMoreGroupFits(rule: SimilarityRule, stored: Store, groups: seq<FacePoseGroup>)
    requires groups != []
    ensures |Chosen(rule, stored, groups)| <=
            |Chosen(rule, stored, groups[..|groups| - 1])| + TargetTemplateCount(groups[|groups| - 1])
    ensures CandidatesIn(stored, groups[|groups| - 1]) == [] ==>
              |Chosen(rule, stored, groups)| <= |Chosen(rule, stored, groups[..|groups| - 1])|
  {
    ChosenFitsTarget(rule, stored, groups[|groups| - 1]);
  }

  lemma {:induction false} ChosenWithinLimits(rule: SimilarityRule, stored: Store, n: nat)
    requires n <= |UNLOCK_GROUPS| && CandidatesIn(stored, FacePoseGroup.FrontalVariant) == []
    ensures |Chosen(rule, stored, UNLOCK_GROUPS[..n])| <= LIMITS[n]
  {
    hide ChosenOf, CandidatesIn;
    if n > 0 {
      ChosenWithinLimits(rule, stored, n - 1);
      assert UNLOCK_GROUPS[..n][..n - 1] == UNLOCK_GROUPS[..n - 1];
      OneMoreGroupFits(rule, stored, UNLOCK_GROUPS[..n]);
    }
  }

  /** Never more than eight templates. */
  lemma AtMostEightTemplates(config: Config, rule: SimilarityRule, model: FaceModelDescriptor, enrolment: Enrolment, history: History)
    ensures |TemplateSetOf(config, rule, model, enrolment, history).templates| <= 8
  {
    StoreHoldsTheCandidates(history, FacePoseGroup.FrontalVariant);
    NoFrontalVariants(history);
    ChosenWithinLimits(rule, StoreOf(history), 6);
    assert UNLOCK_GROUPS[..6] == UNLOCK_GROUPS;
  }

  // ----- conservation -----

  /** A sample without the verdict that enrolment or finishing passed on it. */
  function WithoutVerdict(sample: SampleMetadata): SampleMetadata {
    sample.(selectedForUnlock := false, rejectReason := None)
  }

  function WithoutVerdicts(samples: seq<SampleMetadata>): (plain: seq<SampleMetadata>)
    ensures |plain| == |samples|
  {
    if samples == [] then [] else WithoutVerdicts(samples[..|samples| - 1]) + [WithoutVerdict(samples[|samples| - 1])]
  }

  /** The sample of every observed frame, in order. */
  function ObservedSamples(history: History): (samples: seq<SampleMetadata>)
    ensures |samples| == |history|
  {
    if history == [] then []
    else
      var last := history[|history| - 1];
      ObservedSamples(history[..|history| - 1]) + [if last.Accepted? then last.candidate.metadata else last.metadata]
  }

  /** How often a sample occurs among others when the verdicts are left out. */
  function Occurs(sample: SampleMetadata, samples: seq<SampleMetadata>): nat {
    if samples == [] then 0
    else Occurs(sample, samples[..|samples| - 1]) + if WithoutVerdict(samples[|samples| - 1]) == sample then 1 else 0
  }

  function IsSample(sample: SampleMetadata): CandidateSample -> bool {
    (c: CandidateSample) => WithoutVerdict(c.metadata) == sample
  }

  /** How often a sample occurs among candidates. */
  function OccursIn(sample: SampleMetadata, candidates: seq<CandidateSample>): nat {
    |Filter(IsSample(sample), candidates)|
  }

  lemma {:induction false} OccursAppend(sample: SampleMetadata, a: seq<SampleMetadata>, b: seq<SampleMetadata>)
    ensures Occurs(sample, a + b) == Occurs(sample, a) + Occurs(sample, b)
  {
    if b == [] {
      assert a + b == a;
    } else {
      OccursAppend(sample, a, b[..|b| - 1]);
      assert (a + b)[..|a + b| - 1] == a + b[..|b| - 1];
    }
  }

  /** However finishing marks candidates, they are the same samples. */
  lemma {:induction false} MarksDoNotCount(sample: SampleMetadata, candidates: seq<CandidateSample>)
    ensures Occurs(sample, Samples(candidates)) == OccursIn(sample, candidates)
    ensures Occurs(sample, Duplicates(candidates)) == OccursIn(sample, candidates)
    ensures Occurs(sample, Leftovers(candidates)) == OccursIn(sample, candidates)
  {
    if candidates != [] {
      MarksDoNotCount(sample, candidates[..|candidates| - 1]);
    }
  }

  lemma OccursInAppend(sample: SampleMetadata, a: seq<CandidateSample>, b: seq<CandidateSample>)
    ensures OccursIn(sample, a + b) == OccursIn(sample, a) + OccursIn(sample, b)
  {
    FilterSplits(IsSample(sample), a, b);
  }

  lemma {:induction false} ChosenAndDropped(sample: SampleMetadata, rule: SimilarityRule, ranked: seq<CandidateSample>, cap: nat, n: nat)
    requires n <= |ranked|
    ensures OccursIn(sample, ChosenAmong(rule, ranked, cap, n)) + OccursIn(sample, DroppedAmong(rule, ranked, cap, n)) ==
            OccursIn(sample, ranked[..n])
  {
    hide OccursIn;
    if n > 0 {
      ChosenAndDropped(sample, rule, ranked, cap, n - 1);
      OneMoreRanked(sample, rule, ranked, cap, n - 1);
      OneIsAdded(sample, ranked, n);
    } else {
      assert ranked[..0] == [] && ChosenAmong(rule, ranked, cap, 0) == [] && DroppedAmong(rule, ranked, cap, 0) == [];
      var none: seq<CandidateSample> := [];
      OccursInAppend(sample, none, none);
      assert none + none == none;
    }
  }

  /** The next candidate of a ranking joins either the chosen or the dropped ones. */
  lemma OneMoreRanked(sample: SampleMetadata, rule: SimilarityRule, ranked: seq<CandidateSample>, cap: nat, n: nat)
    requires n < |ranked|
    ensures OccursIn(sample, ChosenAmong(rule, ranked, cap, n + 1)) + OccursIn(sample, DroppedAmong(rule, ranked, cap, n + 1)) ==
            OccursIn(sample, ChosenAmong(rule, ranked, cap, n)) + OccursIn(sample, DroppedAmong(rule, ranked, cap, n))
            + OccursIn(sample, [ranked[n]])
  {
    hide OccursIn, Passed;
    var chosen, dropped := ChosenAmong(rule, ranked, cap, n), DroppedAmong(rule, ranked, cap, n);
    KeptOrDropped(rule, ranked, cap, n);
    OccursInAppend(sample, chosen, [ranked[n]]);
    OccursInAppend(sample, dropped, [ranked[n]]);
    assert chosen + [] == chosen && dropped + [] == dropped;
  }

  lemma OneIsAdded(sample: SampleMetadata, ranked: seq<CandidateSample>, n: nat)
    requires 0 < n <= |ranked|
    ensures OccursIn(sample, ranked[..n]) == OccursIn(sample, ranked[..n - 1]) + OccursIn(sample, [ranked[n - 1]])
  {
    OccursInAppend(sample, ranked[..n - 1], [ranked[n - 1]]);
    assert ranked[..n] == ranked[..n - 1] + [ranked[n - 1]];
  }

  /** Of one group every candidate is either chosen or dropped. */
  lemma GroupIsConserved(sample: SampleMetadata, rule: SimilarityRule, stored: Store, group: FacePoseGroup)
    ensures OccursIn(sample, ChosenOf(rule, stored, group)) + OccursIn(sample, DroppedOf(rule, stored, group)) ==
            OccursIn(sample, CandidatesIn(stored, group))
  {
    var ranked := Ranked(CandidatesIn(stored, group));
    ChosenAndDropped(sample, rule, ranked, TargetTemplateCount(group), |ranked|);
    assert ranked[..|ranked|] == ranked;
    SortCount(WorseQuality, CandidatesIn(stored, group), IsSample(sample));
  }

  /** How often a sample occurs among the candidates of several groups. */
  function OccursInGroups(sample: SampleMetadata, stored: Store, groups: seq<FacePoseGroup>): nat {
    if groups == [] then 0
    else OccursInGroups(sample, stored, groups[..|groups| - 1]) + OccursIn(sample, CandidatesIn(stored, groups[|groups| - 1]))
  }

  lemma {:induction false} GroupsAreConserved(sample: SampleMetadata, rule: SimilarityRule, stored: Store, groups: seq<FacePoseGroup>)
    ensures OccursIn(sample, Chosen(rule, stored, groups)) + OccursIn(sample, Dropped(rule, stored, groups)) ==
            OccursInGroups(sample, stored, groups)
  {
    if groups != [] {
      var init, last := groups[..|groups| - 1], groups[|groups| - 1];
      GroupsAreConserved(sample, rule, stored, init);
      GroupIsConserved(sample, rule, stored, last);
      OccursInAppend(sample, Chosen(rule, stored, init), ChosenOf(rule, stored, last));
      OccursInAppend(sample, Dropped(rule, stored, init), DroppedOf(rule, stored, last));
    }
  }

  /** Filing one candidate adds its sample to the groups that hold its group. */
  lemma {:induction false} FilingAddsOne(sample: SampleMetadata, stored: Store, groups: seq<FacePoseGroup>, group: FacePoseGroup,
                                         c: CandidateSample)
    requires Distinct(groups)
    ensures OccursInGroups(sample, WithFiled(stored, group, c), groups) ==
            OccursInGroups(sample, stored, groups) + if group in GroupSet(groups) then OccursIn(sample, [c]) else 0
  {
    if groups != [] {
      LastIsNew(groups);
      FilingAddsOne(sample, stored, groups[..|groups| - 1], group, c);
      if groups[|groups| - 1] == group {
        OccursInAppend(sample, CandidatesIn(stored, group), [c]);
      }
    }
  }

  const STEP_GROUPS: seq<FacePoseGroup> := UNLOCK_GROUPS + [FacePoseGroup.BlinkMotion]

  lemma StepsLeadToTheirGroups(step: GuidedEnrollmentStep)
    ensures Distinct(STEP_GROUPS) && step.PoseGroup() in GroupSet(STEP_GROUPS)
  {
    assert step.PoseGroup() in STEP_GROUPS;
    GroupSetHolds(STEP_GROUPS, step.PoseGroup());
  }

  /** Candidates and rejected samples together are the observed samples. */
  lemma {:induction false} HistoryIsConserved(sample: SampleMetadata, history: History)
    ensures OccursInGroups(sample, StoreOf(history), STEP_GROUPS) + Occurs(sample, RejectedOf(history)) ==
            Occurs(sample, ObservedSamples(history))
  {
    if history == [] {
      NothingStored(sample, STEP_GROUPS);
    } else {
      var init, last := history[..|history| - 1], history[|history| - 1];
      HistoryIsConserved(sample, init);
      if last.Accepted? {
        CandidateIsObserved(sample, init, last.step, last.candidate);
        assert StoreOf(history) == WithFiled(StoreOf(init), last.step.PoseGroup(), last.candidate);
        assert ObservedSamples(history) == ObservedSamples(init) + [last.candidate.metadata];
        assert RejectedOf(history) == RejectedOf(init);
      } else {
        OccursAppend(sample, RejectedOf(init), [last.metadata]);
        OccursAppend(sample, ObservedSamples(init), [last.metadata]);
      }
    }
  }

  lemma CandidateIsObserved(sample: SampleMetadata, init: History, step: GuidedEnrollmentStep, c: CandidateSample)
    ensures OccursInGroups(sample, WithFiled(StoreOf(init), step.PoseGroup(), c), STEP_GROUPS) ==
            OccursInGroups(sample, StoreOf(init), STEP_GROUPS) + OccursIn(sample, [c])
    ensures Occurs(sample, ObservedSamples(init) + [c.metadata]) == Occurs(sample, ObservedSamples(init)) + OccursIn(sample, [c])
  {
    StepsLeadToTheirGroups(step);
    FilingAddsOne(sample, StoreOf(init), STEP_GROUPS, step.PoseGroup(), c);
    OccursAppend(sample, ObservedSamples(init), [c.metadata]);
    MarksDoNotCount(sample, [c]);
    assert Samples([c]) == [c.metadata];
  }

  lemma {:induction false} NothingStored(sample: SampleMetadata, groups: seq<FacePoseGroup>)
    ensures OccursInGroups(sample, map[], groups) == 0
  {
    if groups != [] {
      NothingStored(sample, groups[..|groups| - 1]);
    }
  }

  lemma {:induction false} OccursIsMultiplicity(sample: SampleMetadata, samples: seq<SampleMetadata>)
    ensures multiset(WithoutVerdicts(samples))[sample] == Occurs(sample, samples)
  {
    if samples != [] {
      OccursIsMultiplicity(sample, samples[..|samples| - 1]);
    }
  }

  lemma FinishConservesOne(sample: SampleMetadata, rule: SimilarityRule, history: History)
    ensures Occurs(sample, KeptSamples(rule, StoreOf(history)) + RefusedSamples(rule, StoreOf(history), RejectedOf(history))) ==
            Occurs(sample, ObservedSamples(history))
  {
    var stored, rejected := StoreOf(history), RejectedOf(history);
    var chosen, dropped := Chosen(rule, stored, UNLOCK_GROUPS), Dropped(rule, stored, UNLOCK_GROUPS);
    var blinks := CandidatesIn(stored, FacePoseGroup.BlinkMotion);
    OccursAppend(sample, KeptSamples(rule, stored), RefusedSamples(rule, stored, rejected));
    OccursAppend(sample, Samples(chosen), Leftovers(blinks));
    OccursAppend(sample, rejected, Duplicates(dropped));
    MarksDoNotCount(sample, chosen);
    MarksDoNotCount(sample, blinks);
    MarksDoNotCount(sample, dropped);
    GroupsAreConserved(sample, rule, stored, UNLOCK_GROUPS);
    assert STEP_GROUPS[..|STEP_GROUPS| - 1] == UNLOCK_GROUPS;
    HistoryIsConserved(sample, history);
  }

  /** Conservation: apart from the verdicts, the published samples are the observed ones, each as often. */
  lemma EverySampleIsPublishedOnce(config: Config, rule: SimilarityRule, model: FaceModelDescriptor, enrolment: Enrolment,
                                   history: History)
    ensures var published := TemplateSetOf(config, rule, model, enrolment, history).sampleMetadata;
            && multiset(WithoutVerdicts(published)) == multiset(WithoutVerdicts(ObservedSamples(history)))
            && |published| == |history|
  {
    var published := TemplateSetOf(config, rule, model, enrolment, history).sampleMetadata;
    var plain, observed := WithoutVerdicts(published), WithoutVerdicts(ObservedSamples(history));
    forall sample: SampleMetadata ensures multiset(plain)[sample] == multiset(observed)[sample] {
      OccursIsMultiplicity(sample, published);
      OccursIsMultiplicity(sample, ObservedSamples(history));
      FinishConservesOne(sample, rule, history);
    }
    assert multiset(plain) == multiset(observed);
    assert |plain| == |multiset(plain)| && |observed| == |multiset(observed)|;
  }

  // ----- verdicts and summary -----

  /** A candidate that is fit to become a template. */
  predicate FitForUnlock(config: Config, c: CandidateSample) {
    && c.metadata.rejectReason == None
    && c.metadata.selectedForUnlock && c.template.selectedForUnlock
    && c.template.qualityScore == Some(c.metadata.quality.qualityScore)
    && c.metadata.quality.qualityScore >= config.qualityPolicy.minQualityScore
  }

  predicate AllFit(config: Config, candidates: seq<CandidateSample>) {
    forall i :: 0 <= i < |candidates| ==> FitForUnlock(config, candidates[i])
  }

  lemma {:induction false} CandidatesAreFit(config: Config, history: History, group: FacePoseGroup)
    requires SoundHistory(config, history) && group in UNLOCK_GROUPS
    ensures AllFit(config, CandidatesOf(history, group))
  {
    if history != [] {
      CandidatesAreFit(config, history[..|history| - 1], group);
      assert SoundEntry(config, history[|history| - 1]);
    }
  }

  lemma RankedAreFit(config: Config, candidates: seq<CandidateSample>)
    requires AllFit(config, candidates)
    ensures AllFit(config, Ranked(candidates))
  {
    SortIsAPermutation(WorseQuality, candidates);
    forall i | 0 <= i < |Ranked(candidates)| ensures FitForUnlock(config, Ranked(candidates)[i]) {
      assert Ranked(candidates)[i] in multiset(Ranked(candidates));
      assert Ranked(candidates)[i] in candidates;
    }
  }

  lemma {:induction false} PickedAreFit(config: Config, rule: SimilarityRule, ranked: seq<CandidateSample>, cap: nat, n: nat)
    requires n <= |ranked| && AllFit(config, ranked)
    ensures AllFit(config, ChosenAmong(rule, ranked, cap, n))
  {
    if n > 0 {
      PickedAreFit(config, rule, ranked, cap, n - 1);
    }
  }

  lemma ChosenAreFit(config: Config, rule: SimilarityRule, history: History, group: FacePoseGroup)
    requires SoundHistory(config, history) && group in UNLOCK_GROUPS
    ensures AllFit(config, ChosenOf(rule, StoreOf(history), group))
  {
    StoreHoldsTheCandidates(history, group);
    CandidatesAreFit(config, history, group);
    RankedAreFit(config, CandidatesOf(history, group));
    PickedAreFit(config, rule, Ranked(CandidatesOf(history, group)), TargetTemplateCount(group), |CandidatesOf(history, group)|);
  }

  lemma {:induction false} AllChosenAreFit(config: Config, rule: SimilarityRule, history: History, groups: seq<FacePoseGroup>)
    requires SoundHistory(config, history) && forall i :: 0 <= i < |groups| ==> groups[i] in UNLOCK_GROUPS
    ensures AllFit(config, Chosen(rule, StoreOf(history), groups))
  {
    if groups != [] {
      AllChosenAreFit(config, rule, history, groups[..|groups| - 1]);
      ChosenAreFit(config, rule, history, groups[|groups| - 1]);
    }
  }

  /** All published templates take part in unlocking, and carry a quality of at least the published minimum. */
  lemma TemplatesAreFitForUnlock(config: Config, rule: SimilarityRule, model: FaceModelDescriptor, enrolment: Enrolment,
                                 history: History)
    requires SoundHistory(config, history)
    ensures var templateSet := TemplateSetOf(config, rule, model, enrolment, history);
            && templateSet.SelectedTemplates() == templateSet.templates
            && forall i :: 0 <= i < |templateSet.templates| ==>
                             templateSet.templates[i].qualityScore.Some?
                             && templateSet.templates[i].qualityScore.value >= templateSet.thresholdProfile.minQualityScore
  {
    var chosen := Chosen(rule, StoreOf(history), UNLOCK_GROUPS);
    AllChosenAreFit(config, rule, history, UNLOCK_GROUPS);
    forall i | 0 <= i < |chosen| ensures Templates(chosen)[i] == chosen[i].template && FitForUnlock(config, chosen[i]) {
      TemplatesAt(chosen, i);
    }
    FilterEverything((template: FaceTemplate) => template.selectedForUnlock, Templates(chosen));
  }

  function HasReason(): SampleMetadata -> bool {
    (sample: SampleMetadata) => sample.rejectReason.Some?
  }

  /** How many of the samples carry a reject reason. */
  function RejectedCount(samples: seq<SampleMetadata>): nat {
    |Filter(HasReason(), samples)|
  }

  lemma {:induction false} SamplesAt(candidates: seq<CandidateSample>, i: nat)
    requires i < |candidates|
    ensures Samples(candidates)[i] == candidates[i].metadata
    ensures Leftovers(candidates)[i] == Unselected(candidates[i])
    ensures Duplicates(candidates)[i] == AsDuplicate(candidates[i])
  {
    if i < |candidates| - 1 {
      SamplesAt(candidates[..|candidates| - 1], i);
    }
  }

  predicate Kept(config: Config, sample: SampleMetadata) {
    sample.rejectReason == None && sample.quality.qualityScore >= config.qualityPolicy.minQualityScore
  }

  predicate AllKept(config: Config, samples: seq<SampleMetadata>) {
    forall i :: 0 <= i < |samples| ==> Kept(config, samples[i])
  }

  lemma KeptSamplesAreKept(config: Config, rule: SimilarityRule, history: History)
    requires SoundHistory(config, history)
    ensures AllKept(config, KeptSamples(rule, StoreOf(history)))
  {
    var chosen, blinks := Chosen(rule, StoreOf(history), UNLOCK_GROUPS), CandidatesOf(history, FacePoseGroup.BlinkMotion);
    AllChosenAreFit(config, rule, history, UNLOCK_GROUPS);
    StoreHoldsTheCandidates(history, FacePoseGroup.BlinkMotion);
    CandidatesAreSound(config, history, FacePoseGroup.BlinkMotion);
    forall i | 0 <= i < |chosen| ensures Kept(config, Samples(chosen)[i]) {
      SamplesAt(chosen, i);
      assert FitForUnlock(config, chosen[i]);
    }
    forall i | 0 <= i < |blinks| ensures Kept(config, Leftovers(blinks)[i]) {
      SamplesAt(blinks, i);
      assert blinks[i] in blinks;
      var step: GuidedEnrollmentStep :| SoundCandidate(config, step, blinks[i]);
    }
  }

  predicate AllHaveReasons(samples: seq<SampleMetadata>) {
    forall i :: 0 <= i < |samples| ==> samples[i].rejectReason.Some?
  }

  lemma RefusedSamplesHaveReasons(config: Config, rule: SimilarityRule, history: History)
    requires SoundHistory(config, history)
    ensures AllHaveReasons(RefusedSamples(rule, StoreOf(history), RejectedOf(history)))
  {
    var dropped := Dropped(rule, StoreOf(history), UNLOCK_GROUPS);
    RejectedAreUnselected(config, history);
    forall i | 0 <= i < |dropped| ensures Duplicates(dropped)[i].rejectReason.Some? {
      SamplesAt(dropped, i);
    }
  }

  /** The summary counts what is published: samples with a reason, and templates plus blink samples. */
  lemma SummaryCounts(config: Config, rule: SimilarityRule, model: FaceModelDescriptor, enrolment: Enrolment, history: History)
    requires SoundHistory(config, history)
    ensures var templateSet := TemplateSetOf(config, rule, model, enrolment, history);
            && templateSet.qualitySummary.rejectedSampleCount == RejectedCount(templateSet.sampleMetadata)
            && templateSet.qualitySummary.selectedTemplateCount ==
               |templateSet.templates| + |CandidatesOf(history, FacePoseGroup.BlinkMotion)|
            && templateSet.qualitySummary.selectedTemplateCount + templateSet.qualitySummary.rejectedSampleCount == |history|
  {
    EverySampleIsPublishedOnce(config, rule, model, enrolment, history);
    StoreHoldsTheCandidates(history, FacePoseGroup.BlinkMotion);
    ReasonsAreOfTheRefused(config, rule, history);
  }

  lemma ReasonsAreOfTheRefused(config: Config, rule: SimilarityRule, history: History)
    requires SoundHistory(config, history)
    ensures var kept, refused := KeptSamples(rule, StoreOf(history)), RefusedSamples(rule, StoreOf(history), RejectedOf(history));
            RejectedCount(kept + refused) == |refused|
  {
    var kept, refused := KeptSamples(rule, StoreOf(history)), RefusedSamples(rule, StoreOf(history), RejectedOf(history));
    KeptSamplesAreKept(config, rule, history);
    RefusedSamplesHaveReasons(config, rule, history);
    CountOfReasons(config, kept, refused);
  }

  lemma CountOfReasons(config: Config, kept: seq<SampleMetadata>, refused: seq<SampleMetadata>)
    requires AllKept(config, kept) && AllHaveReasons(refused)
    ensures RejectedCount(kept + refused) == |refused|
  {
    assert forall i :: 0 <= i < |kept| ==> Kept(config, kept[i]);
    FilterNothing(HasReason(), kept);
    FilterEverything(HasReason(), refused);
    FilterSplits(HasReason(), kept, refused);
  }

  /** What the summary says of quality: its minimum is real, and at least the published floor. */
  lemma SummaryMinimumMeetsTheFloor(config: Config, rule: SimilarityRule, model: FaceModelDescriptor, enrolment: Enrolment,
                                    history: History)
    requires SoundHistory(config, history)
    ensures var templateSet := TemplateSetOf(config, rule, model, enrolment, history);
            var minimum := templateSet.qualitySummary.minimumSelectedQualityScore;
            && (minimum.Some? <==> templateSet.qualitySummary.selectedTemplateCount > 0)
            && (minimum.Some? ==> minimum.value >= templateSet.thresholdProfile.minQualityScore)
  {
    var kept := KeptSamples(rule, StoreOf(history));
    var refused := RefusedSamples(rule, StoreOf(history), RejectedOf(history));
    SummaryIsTrue(kept, |refused|);
    KeptSamplesAreKept(config, rule, history);
    if kept != [] {
      var i :| 0 <= i < |kept| && QualitySummaryOf(kept, |refused|).minimumSelectedQualityScore.value == kept[i].quality.qualityScore;
      assert Kept(config, kept[i]);
    }
  }

  /**
   * The verdict that each sample is published with: those of the templates are selected, the
   * blink samples are kept unselected, the rejected ones keep their reasons, and what is left
   * over in the groups is a duplicate.
   */
  lemma VerdictsArePublished(config: Config, rule: SimilarityRule, model: FaceModelDescriptor, enrolment: Enrolment,
                             history: History, i: nat)
    requires SoundHistory(config, history) && i < |TemplateSetOf(config, rule, model, enrolment, history).sampleMetadata|
    ensures var templateSet := TemplateSetOf(config, rule, model, enrolment, history);
            var sample, selected := templateSet.sampleMetadata[i], |templateSet.templates|;
            var kept := templateSet.qualitySummary.selectedTemplateCount;
            var withRejected := kept + |RejectedOf(history)|;
            && (sample.selectedForUnlock <==> i < selected)
            && (sample.rejectReason.None? <==> i < kept)
            && (kept <= i < withRejected ==> sample == RejectedOf(history)[i - kept])
            && (i >= withRejected ==> sample.rejectReason == Some(DuplicateTooSimilar))
  {
    var stored := StoreOf(history);
    var chosen, blinks, dropped := Chosen(rule, stored, UNLOCK_GROUPS), CandidatesIn(stored, FacePoseGroup.BlinkMotion),
                                   Dropped(rule, stored, UNLOCK_GROUPS);
    hide SoundHistory, Chosen, Dropped, StoreOf, CandidatesIn, AllKept, AllFit, RejectedOf;
    AllChosenAreFit(config, rule, history, UNLOCK_GROUPS);
    KeptSamplesAreKept(config, rule, history);
    RejectedAreUnselected(config, history);
    VerdictAt(config, chosen, blinks, RejectedOf(history), dropped, i);
  }

  lemma VerdictAt(config: Config, chosen: seq<CandidateSample>, blinks: seq<CandidateSample>, rejected: seq<SampleMetadata>,
                  dropped: seq<CandidateSample>, i: nat)
    requires AllFit(config, chosen) && AllKept(config, Samples(chosen) + Leftovers(blinks))
    requires forall k :: 0 <= k < |rejected| ==> rejected[k].rejectReason.Some? && !rejected[k].selectedForUnlock
    requires i < |Samples(chosen) + Leftovers(blinks) + (rejected + Duplicates(dropped))|
    ensures var sample := (Samples(chosen) + Leftovers(blinks) + (rejected + Duplicates(dropped)))[i];
            var kept := |chosen| + |blinks|;
            && (sample.selectedForUnlock <==> i < |chosen|)
            && (sample.rejectReason.None? <==> i < kept)
            && (kept <= i < kept + |rejected| ==> sample == rejected[i - kept])
            && (i >= kept + |rejected| ==> sample.rejectReason == Some(DuplicateTooSimilar))
  {
    hide Samples, Leftovers, Duplicates;
    var kept := Samples(chosen) + Leftovers(blinks);
    if i < |chosen| {
      SamplesAt(chosen, i);
      assert FitForUnlock(config, chosen[i]);
    } else if i < |kept| {
      SamplesAt(blinks, i - |chosen|);
      assert Kept(config, kept[i]);
    } else if i >= |kept| + |rejected| {
      SamplesAt(dropped, i - |kept| - |rejected|);
    }
  }

  lemma {:induction false} RejectedAreUnselected(config: Config, history: History)
    requires SoundHistory(config, history)
    ensures forall i :: 0 <= i < |RejectedOf(history)| ==>
                          RejectedOf(history)[i].rejectReason.Some? && !RejectedOf(history)[i].selectedForUnlock
  {
    if history != [] {
      RejectedAreUnselected(config, history[..|history| - 1]);
      assert SoundEntry(config, history[|history| - 1]);
    }
  }
}
