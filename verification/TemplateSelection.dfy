/** Choosing the templates of an enrolment out of the candidates of each pose group. */
module TemplateSelection {
  import opened Wrappers
  import opened Embeddings
  import opened FaceEngine
  import opened StableSort
  import opened GreedySelection
  import RealMath

  datatype CandidateSample = CandidateSample(template: FaceTemplate, metadata: SampleMetadata)

  type Store = map<FacePoseGroup, seq<CandidateSample>>

  /** The groups that templates are chosen from, in order. */
  const UNLOCK_GROUPS: seq<FacePoseGroup> :=
    [FrontalPrimary, FrontalVariant, YawLeftMild, YawRightMild, PitchDownMild, PitchUpMild]

  function TargetTemplateCount(group: FacePoseGroup): nat {
    match group
    case FrontalPrimary => 2
    case FrontalVariant => 2
    case YawLeftMild => 2
    case YawRightMild => 2
    case PitchDownMild => 1
    case PitchUpMild => 1
    case _ => 0
  }

  /** When two templates count as the same: their similarity reaches a threshold. */
  datatype SimilarityRule = SimilarityRule(sqrt: SquareRoot, threshold: real) {
    predicate TooSimilar(selected: FaceTemplate, candidate: FaceTemplate) {
      match Cosine(sqrt, selected.embedding, candidate.embedding)
      case Some(score) => score >= threshold
      case None => false
    }
  }

  function SelectedTemplatesForGroup(templates: seq<FaceTemplate>, group: FacePoseGroup): nat {
    |Filter(InGroup(group), templates)|
  }

  function InGroup(group: FacePoseGroup): FaceTemplate -> bool {
    (template: FaceTemplate) => template.poseGroup == group
  }

  predicate IsDuplicate(rule: SimilarityRule, selected: seq<FaceTemplate>, group: FacePoseGroup, candidate: FaceTemplate) {
    exists i :: 0 <= i < |selected| && selected[i].poseGroup == group && rule.TooSimilar(selected[i], candidate)
  }

  // ----- what is chosen, as functions -----

  /** Best quality first; candidates of equal quality stay in the order they came in. */
  function Ranked(candidates: seq<CandidateSample>): (ranked: seq<CandidateSample>)
    ensures |ranked| == |candidates|
  {
    SortByKey(WorseQuality, candidates)
  }

  function WorseQuality(c: CandidateSample): real {
    -c.metadata.quality.qualityScore
  }

  function Same(rule: SimilarityRule): (CandidateSample, CandidateSample) -> bool {
    (a: CandidateSample, b: CandidateSample) => rule.TooSimilar(a.template, b.template)
  }

  /** The candidates kept among the first `n` of a ranking. */
  function ChosenAmong(rule: SimilarityRule, ranked: seq<CandidateSample>, cap: nat, n: nat): (chosen: seq<CandidateSample>)
    requires n <= |ranked|
    ensures |chosen| == |Greedy(Same(rule), ranked, cap, n)|
  {
    if n == 0 then []
    else
      var before := ChosenAmong(rule, ranked, cap, n - 1);
      if n - 1 in Greedy(Same(rule), ranked, cap, n) then before + [ranked[n - 1]] else before
  }

  /** The candidates passed over among the first `n` of a ranking. */
  function DroppedAmong(rule: SimilarityRule, ranked: seq<CandidateSample>, cap: nat, n: nat): seq<CandidateSample>
    requires n <= |ranked|
  {
    if n == 0 then []
    else
      var before := DroppedAmong(rule, ranked, cap, n - 1);
      if n - 1 in Greedy(Same(rule), ranked, cap, n) then before else before + [ranked[n - 1]]
  }

  function CandidatesIn(stored: Store, group: FacePoseGroup): seq<CandidateSample> {
    if group in stored then stored[group] else []
  }

  function ChosenOf(rule: SimilarityRule, stored: Store, group: FacePoseGroup): seq<CandidateSample> {
    var ranked := Ranked(CandidatesIn(stored, group));
    ChosenAmong(rule, ranked, TargetTemplateCount(group), |ranked|)
  }

  function DroppedOf(rule: SimilarityRule, stored: Store, group: FacePoseGroup): seq<CandidateSample> {
    var ranked := Ranked(CandidatesIn(stored, group));
    DroppedAmong(rule, ranked, TargetTemplateCount(group), |ranked|)
  }

  function Chosen(rule: SimilarityRule, stored: Store, groups: seq<FacePoseGroup>): seq<CandidateSample> {
    if groups == [] then []
    else Chosen(rule, stored, groups[..|groups| - 1]) + ChosenOf(rule, stored, groups[|groups| - 1])
  }

  function Dropped(rule: SimilarityRule, stored: Store, groups: seq<FacePoseGroup>): seq<CandidateSample> {
    if groups == [] then []
    else Dropped(rule, stored, groups[..|groups| - 1]) + DroppedOf(rule, stored, groups[|groups| - 1])
  }

  function Templates(candidates: seq<CandidateSample>): (templates: seq<FaceTemplate>)
    ensures |templates| == |candidates|
  {
    if candidates == [] then [] else Templates(candidates[..|candidates| - 1]) + [candidates[|candidates| - 1].template]
  }

  function Samples(candidates: seq<CandidateSample>): (samples: seq<SampleMetadata>)
    ensures |samples| == |candidates|
  {
    if candidates == [] then [] else Samples(candidates[..|candidates| - 1]) + [candidates[|candidates| - 1].metadata]
  }

  function AsDuplicate(c: CandidateSample): SampleMetadata {
    c.metadata.(selectedForUnlock := false, rejectReason := Some(DuplicateTooSimilar))
  }

  function Duplicates(candidates: seq<CandidateSample>): (samples: seq<SampleMetadata>)
    ensures |samples| == |candidates|
  {
    if candidates == [] then [] else Duplicates(candidates[..|candidates| - 1]) + [AsDuplicate(candidates[|candidates| - 1])]
  }

  function Unselected(c: CandidateSample): SampleMetadata {
    c.metadata.(selectedForUnlock := false)
  }

  function Leftovers(candidates: seq<CandidateSample>): (samples: seq<SampleMetadata>)
    ensures |samples| == |candidates|
  {
    if candidates == [] then [] else Leftovers(candidates[..|candidates| - 1]) + [Unselected(candidates[|candidates| - 1])]
  }

  lemma {:induction false} TemplatesAt(candidates: seq<CandidateSample>, i: nat)
    requires i < |candidates|
    ensures Templates(candidates)[i] == candidates[i].template
  {
    if i < |candidates| - 1 {
      TemplatesAt(candidates[..|candidates| - 1], i);
    }
  }

  lemma {:induction false} TemplatesAppend(a: seq<CandidateSample>, b: seq<CandidateSample>)
    ensures Templates(a + b) == Templates(a) + Templates(b)
  {
    if b == [] {
      assert a + b == a;
    } else {
      var last := |b| - 1;
      TemplatesAppend(a, b[..last]);
      assert (a + b)[..|a + b| - 1] == a + b[..last];
    }
  }

  lemma {:induction false} SamplesAppend(a: seq<CandidateSample>, b: seq<CandidateSample>)
    ensures Samples(a + b) == Samples(a) + Samples(b)
  {
    if b == [] {
      assert a + b == a;
    } else {
      var last := |b| - 1;
      SamplesAppend(a, b[..last]);
      assert (a + b)[..|a + b| - 1] == a + b[..last];
    }
  }

  lemma {:induction false} DuplicatesAppend(a: seq<CandidateSample>, b: seq<CandidateSample>)
    ensures Duplicates(a + b) == Duplicates(a) + Duplicates(b)
  {
    if b == [] {
      assert a + b == a;
    } else {
      var last := |b| - 1;
      DuplicatesAppend(a, b[..last]);
      assert (a + b)[..|a + b| - 1] == a + b[..last];
    }
  }

  lemma PushChosen(templates: seq<FaceTemplate>, samples: seq<SampleMetadata>, chosen: seq<CandidateSample>, c: CandidateSample)
    ensures templates + Templates(chosen + [c]) == templates + Templates(chosen) + [c.template]
    ensures samples + Samples(chosen + [c]) == samples + Samples(chosen) + [c.metadata]
  {
    TemplatesAppend(chosen, [c]);
    SamplesAppend(chosen, [c]);
    assert Templates([c]) == [c.template] && Samples([c]) == [c.metadata];
  }

  lemma PushDropped(samples: seq<SampleMetadata>, dropped: seq<CandidateSample>, c: CandidateSample)
    ensures samples + Duplicates(dropped + [c]) == samples + Duplicates(dropped) + [AsDuplicate(c)]
  {
    DuplicatesAppend(dropped, [c]);
    assert Duplicates([c]) == [AsDuplicate(c)];
  }

  /** Every stored candidate knows its group, and only groups that steps lead to are stored. */
  predicate WellStored(stored: Store) {
    && (forall group :: group in stored ==> group in UNLOCK_GROUPS || group == BlinkMotion)
    && (forall group :: group in stored ==> forall i :: 0 <= i < |stored[group]| ==> stored[group][i].template.poseGroup == group)
  }

  // ----- the loops -----

  lemma {:induction false} ChosenAt(rule: SimilarityRule, ranked: seq<CandidateSample>, cap: nat, n: nat, k: nat)
    requires n <= |ranked| && k < |ChosenAmong(rule, ranked, cap, n)|
    ensures ChosenAmong(rule, ranked, cap, n)[k] == ranked[Greedy(Same(rule), ranked, cap, n)[k]]
  {
    if k < |ChosenAmong(rule, ranked, cap, n - 1)| {
      ChosenAt(rule, ranked, cap, n - 1, k);
    }
  }

  /** How many templates of the group are selected already: as many as the greedy choice kept. */
  lemma CountTest(rule: SimilarityRule, group: FacePoseGroup, earlier: seq<FaceTemplate>, chosen: seq<FaceTemplate>)
    requires forall i :: 0 <= i < |chosen| ==> chosen[i].poseGroup == group
    requires forall i :: 0 <= i < |earlier| ==> earlier[i].poseGroup != group
    ensures SelectedTemplatesForGroup(earlier + chosen, group) == |chosen|
  {
    FilterSplits(InGroup(group), earlier, chosen);
    FilterNothing(InGroup(group), earlier);
    FilterEverything(InGroup(group), chosen);
  }

  /** Templates of other groups do not make a duplicate. */
  lemma DuplicateTest(rule: SimilarityRule, group: FacePoseGroup, earlier: seq<FaceTemplate>, chosen: seq<FaceTemplate>,
                      candidate: FaceTemplate)
    requires forall i :: 0 <= i < |chosen| ==> chosen[i].poseGroup == group
    requires forall i :: 0 <= i < |earlier| ==> earlier[i].poseGroup != group
    ensures IsDuplicate(rule, earlier + chosen, group, candidate) <==>
            exists k :: 0 <= k < |chosen| && rule.TooSimilar(chosen[k], candidate)
  {
    var all := earlier + chosen;
    if k :| 0 <= k < |chosen| && rule.TooSimilar(chosen[k], candidate) {
      assert all[|earlier| + k] == chosen[k];
    }
    if i :| 0 <= i < |all| && all[i].poseGroup == group && rule.TooSimilar(all[i], candidate) {
      assert chosen[i - |earlier|] == all[i];
    }
  }

  /** The two tests of the loop are those of the greedy choice. */
  lemma LoopTests(rule: SimilarityRule, group: FacePoseGroup, earlier: seq<FaceTemplate>,
                  ranked: seq<CandidateSample>, cap: nat, n: nat)
    requires n < |ranked|
    requires forall i :: 0 <= i < |ranked| ==> ranked[i].template.poseGroup == group
    requires forall i :: 0 <= i < |earlier| ==> earlier[i].poseGroup != group
    ensures var templates := earlier + Templates(ChosenAmong(rule, ranked, cap, n));
            Passed(rule, ranked, cap, n) <==>
            SelectedTemplatesForGroup(templates, group) >= cap || IsDuplicate(rule, templates, group, ranked[n].template)
  {
    var chosen := Templates(ChosenAmong(rule, ranked, cap, n));
    var positions := Greedy(Same(rule), ranked, cap, n);
    forall k | 0 <= k < |chosen| ensures chosen[k] == ranked[positions[k]].template && chosen[k].poseGroup == group {
      ChosenAt(rule, ranked, cap, n, k);
      TemplatesAt(ChosenAmong(rule, ranked, cap, n), k);
    }
    CountTest(rule, group, earlier, chosen);
    DuplicateTest(rule, group, earlier, chosen, ranked[n].template);
    assert forall k :: 0 <= k < |positions| ==>
                         (Same(rule)(ranked[positions[k]], ranked[n]) <==> rule.TooSimilar(chosen[k], ranked[n].template));
  }

  /** The greedy choice passes over position `n`. */
  predicate Passed(rule: SimilarityRule, ranked: seq<CandidateSample>, cap: nat, n: nat)
    requires n < |ranked|
  {
    var positions := Greedy(Same(rule), ranked, cap, n);
    |positions| >= cap || Repeats(Same(rule), ranked, positions, n)
  }

  /** Ranks the candidates of one group and takes from them. */
  method SelectFromGroup(rule: SimilarityRule, group: FacePoseGroup, candidates: seq<CandidateSample>,
                         templates: seq<FaceTemplate>, selected: seq<SampleMetadata>, rejected: seq<SampleMetadata>)
    returns (templates': seq<FaceTemplate>, selected': seq<SampleMetadata>, rejected': seq<SampleMetadata>)
    requires forall i :: 0 <= i < |candidates| ==> candidates[i].template.poseGroup == group
    requires forall i :: 0 <= i < |templates| ==> templates[i].poseGroup != group
    ensures var ranked, cap := Ranked(candidates), TargetTemplateCount(group);
            && templates' == templates + Templates(ChosenAmong(rule, ranked, cap, |ranked|))
            && selected' == selected + Samples(ChosenAmong(rule, ranked, cap, |ranked|))
            && rejected' == rejected + Duplicates(DroppedAmong(rule, ranked, cap, |ranked|))
  {
    RankedHasTheSame(candidates, group);
    templates', selected', rejected' :=
      SelectRanked(rule, group, Ranked(candidates), TargetTemplateCount(group), templates, selected, rejected);
  }

  /** Takes from a ranking as many templates as the group may have, passing over duplicates. */
  method SelectRanked(rule: SimilarityRule, group: FacePoseGroup, ranked: seq<CandidateSample>, targetCount: nat,
                      templates: seq<FaceTemplate>, selected: seq<SampleMetadata>, rejected: seq<SampleMetadata>)
    returns (templates': seq<FaceTemplate>, selected': seq<SampleMetadata>, rejected': seq<SampleMetadata>)
    requires forall i :: 0 <= i < |ranked| ==> ranked[i].template.poseGroup == group
    requires forall i :: 0 <= i < |templates| ==> templates[i].poseGroup != group
    ensures templates' == templates + Templates(ChosenAmong(rule, ranked, targetCount, |ranked|))
    ensures selected' == selected + Samples(ChosenAmong(rule, ranked, targetCount, |ranked|))
    ensures rejected' == rejected + Duplicates(DroppedAmong(rule, ranked, targetCount, |ranked|))
  {
    templates', selected', rejected' := templates, selected, rejected;
    ghost var chosen: seq<CandidateSample>, dropped: seq<CandidateSample> := [], [];
    for n := 0 to |ranked|
      invariant chosen == ChosenAmong(rule, ranked, targetCount, n) && dropped == DroppedAmong(rule, ranked, targetCount, n)
      invariant templates' == templates + Templates(chosen)
      invariant selected' == selected + Samples(chosen)
      invariant rejected' == rejected + Duplicates(dropped)
    {
      var candidate := ranked[n];
      LoopTests(rule, group, templates, ranked, targetCount, n);
      KeptOrDropped(rule, ranked, targetCount, n);
      if SelectedTemplatesForGroup(templates', group) >= targetCount || IsDuplicate(rule, templates', group, candidate.template) {
        PushDropped(rejected, dropped, candidate);
        rejected' := rejected' + [AsDuplicate(candidate)];
        dropped := dropped + [candidate];
      } else {
        PushChosen(templates, selected, chosen, candidate);
        selected' := selected' + [candidate.metadata];
        templates' := templates' + [candidate.template];
        chosen := chosen + [candidate];
      }
    }
  }

  lemma KeptOrDropped(rule: SimilarityRule, ranked: seq<CandidateSample>, cap: nat, n: nat)
    requires n < |ranked|
    ensures ChosenAmong(rule, ranked, cap, n + 1) ==
            ChosenAmong(rule, ranked, cap, n) + if Passed(rule, ranked, cap, n) then [] else [ranked[n]]
    ensures DroppedAmong(rule, ranked, cap, n + 1) ==
            DroppedAmong(rule, ranked, cap, n) + if Passed(rule, ranked, cap, n) then [ranked[n]] else []
  {
    var positions := Greedy(Same(rule), ranked, cap, n);
    assert n !in positions;
    if !Passed(rule, ranked, cap, n) {
      assert (positions + [n])[|positions|] == n;
    }
  }

  lemma RankedHasTheSame(candidates: seq<CandidateSample>, group: FacePoseGroup)
    requires forall i :: 0 <= i < |candidates| ==> candidates[i].template.poseGroup == group
    ensures forall i :: 0 <= i < |candidates| ==> Ranked(candidates)[i].template.poseGroup == group
  {
    SortIsAPermutation(WorseQuality, candidates);
    forall i | 0 <= i < |candidates| ensures Ranked(candidates)[i].template.poseGroup == group {
      assert Ranked(candidates)[i] in multiset(Ranked(candidates));
      assert Ranked(candidates)[i] in candidates;
    }
  }

  function GroupSet(groups: seq<FacePoseGroup>): set<FacePoseGroup> {
    if groups == [] then {} else GroupSet(groups[..|groups| - 1]) + {groups[|groups| - 1]}
  }

  lemma {:induction false} GroupSetHolds(groups: seq<FacePoseGroup>, group: FacePoseGroup)
    ensures group in GroupSet(groups) <==> exists i :: 0 <= i < |groups| && groups[i] == group
  {
    if groups != [] {
      var init := groups[..|groups| - 1];
      GroupSetHolds(init, group);
      if group in GroupSet(init) {
        var i :| 0 <= i < |init| && init[i] == group;
        assert groups[i] == group;
      }
      if i :| 0 <= i < |groups| && groups[i] == group && i < |init| {
        assert init[i] == group;
      }
    }
  }

  predicate Distinct(groups: seq<FacePoseGroup>) {
    forall i, j :: 0 <= i < j < |groups| ==> groups[i] != groups[j]
  }

  /** What the chosen templates of some groups are not: templates of another group. */
  lemma {:induction false} ChosenAvoidGroup(rule: SimilarityRule, stored: Store, done: seq<FacePoseGroup>, group: FacePoseGroup)
    requires WellStored(stored) && group !in GroupSet(done)
    ensures forall i :: 0 <= i < |Chosen(rule, stored, done)| ==> Chosen(rule, stored, done)[i].template.poseGroup != group
  {
    if done != [] {
      var init, last := done[..|done| - 1], done[|done| - 1];
      ChosenAvoidGroup(rule, stored, init, group);
      ChosenAreOfTheGroup(rule, stored, last);
    }
  }

  lemma TemplatesAvoidGroup(chosen: seq<CandidateSample>, group: FacePoseGroup)
    requires forall i :: 0 <= i < |chosen| ==> chosen[i].template.poseGroup != group
    ensures forall i :: 0 <= i < |Templates(chosen)| ==> Templates(chosen)[i].poseGroup != group
  {
    forall i | 0 <= i < |chosen| ensures Templates(chosen)[i].poseGroup != group {
      TemplatesAt(chosen, i);
    }
  }

  /** Goes through the groups one after the other; `rest` is what no group took. */
  method SelectFromGroups(rule: SimilarityRule, stored: Store, groups: seq<FacePoseGroup>, rejectedMetadata: seq<SampleMetadata>)
    returns (templates: seq<FaceTemplate>, selected: seq<SampleMetadata>, rejected: seq<SampleMetadata>, rest: Store)
    requires WellStored(stored) && Distinct(groups)
    ensures templates == Templates(Chosen(rule, stored, groups))
    ensures selected == Samples(Chosen(rule, stored, groups))
    ensures rejected == rejectedMetadata + Duplicates(Dropped(rule, stored, groups))
    ensures rest == stored - GroupSet(groups)
  {
    templates, selected, rejected, rest := [], [], rejectedMetadata, stored;
    ghost var done: seq<FacePoseGroup> := [];
    for k := 0 to |groups|
      invariant done == groups[..k]
      invariant templates == Templates(Chosen(rule, stored, done))
      invariant selected == Samples(Chosen(rule, stored, done))
      invariant rejected == rejectedMetadata + Duplicates(Dropped(rule, stored, done))
      invariant rest == stored - GroupSet(done)
    {
      var group := groups[k];
      NextGroup(rule, stored, groups, k);
      OneMoreGroup(rule, stored, done, group, rejectedMetadata);
      if group in rest {
        var candidates := rest[group];
        templates, selected, rejected := SelectFromGroup(rule, group, candidates, templates, selected, rejected);
      }
      rest := rest - {group};
      done := done + [group];
    }
    assert done == groups;
  }

  lemma NextGroup(rule: SimilarityRule, stored: Store, groups: seq<FacePoseGroup>, k: nat)
    requires k < |groups| && Distinct(groups) && WellStored(stored)
    ensures groups[k] !in GroupSet(groups[..k])
    ensures groups[..k + 1] == groups[..k] + [groups[k]]
    ensures stored - GroupSet(groups[..k]) - {groups[k]} == stored - GroupSet(groups[..k + 1])
    ensures var templates := Templates(Chosen(rule, stored, groups[..k]));
            forall i :: 0 <= i < |templates| ==> templates[i].poseGroup != groups[k]
  {
    GroupSetHolds(groups[..k], groups[k]);
    assert groups[..k + 1][..k] == groups[..k];
    ChosenAvoidGroup(rule, stored, groups[..k], groups[k]);
    TemplatesAvoidGroup(Chosen(rule, stored, groups[..k]), groups[k]);
  }

  lemma ChosenAreOfTheGroup(rule: SimilarityRule, stored: Store, group: FacePoseGroup)
    requires WellStored(stored)
    ensures forall t :: 0 <= t < |ChosenOf(rule, stored, group)| ==> ChosenOf(rule, stored, group)[t].template.poseGroup == group
  {
    var ranked, cap := Ranked(CandidatesIn(stored, group)), TargetTemplateCount(group);
    RankedHasTheSame(CandidatesIn(stored, group), group);
    forall t | 0 <= t < |ChosenOf(rule, stored, group)| ensures ChosenOf(rule, stored, group)[t].template.poseGroup == group {
      ChosenAt(rule, ranked, cap, |ranked|, t);
    }
  }

  lemma OneMoreGroup(rule: SimilarityRule, stored: Store, done: seq<FacePoseGroup>, group: FacePoseGroup,
                     rejected: seq<SampleMetadata>)
    ensures var templates, samples := Templates(Chosen(rule, stored, done)), Samples(Chosen(rule, stored, done));
            var duplicates := rejected + Duplicates(Dropped(rule, stored, done));
            var after := done + [group];
            && Templates(Chosen(rule, stored, after)) == templates + Templates(ChosenOf(rule, stored, group))
            && Samples(Chosen(rule, stored, after)) == samples + Samples(ChosenOf(rule, stored, group))
            && rejected + Duplicates(Dropped(rule, stored, after)) == duplicates + Duplicates(DroppedOf(rule, stored, group))
            && (group !in stored ==>
                  && Templates(Chosen(rule, stored, after)) == templates
                  && Samples(Chosen(rule, stored, after)) == samples
                  && rejected + Duplicates(Dropped(rule, stored, after)) == duplicates)
  {
    assert (done + [group])[..|done|] == done;
    PartsJoin(Chosen(rule, stored, done), ChosenOf(rule, stored, group), rejected);
    PartsJoin(Dropped(rule, stored, done), DroppedOf(rule, stored, group), rejected);
    if group !in stored {
      NothingOfAMissingGroup(rule, stored, group);
    }
  }

  lemma NothingOfAMissingGroup(rule: SimilarityRule, stored: Store, group: FacePoseGroup)
    requires group !in stored
    ensures ChosenOf(rule, stored, group) == [] && DroppedOf(rule, stored, group) == []
  {
  }

  lemma PartsJoin(a: seq<CandidateSample>, b: seq<CandidateSample>, rejected: seq<SampleMetadata>)
    ensures Templates(a + b) == Templates(a) + Templates(b)
    ensures Samples(a + b) == Samples(a) + Samples(b)
    ensures rejected + Duplicates(a + b) == rejected + Duplicates(a) + Duplicates(b)
    ensures b == [] ==> a + b == a
  {
    TemplatesAppend(a, b);
    SamplesAppend(a, b);
    DuplicatesAppend(a, b);
  }

  /** Everything left over is kept as a sample but not for unlocking, group by group in any order. */
  method KeepLeftovers(rest: Store, selected: seq<SampleMetadata>) returns (selected': seq<SampleMetadata>)
    requires forall group :: group in rest ==> group == BlinkMotion
    ensures selected' == selected + Leftovers(CandidatesIn(rest, BlinkMotion))
  {
    selected' := selected;
    var groups := rest.Keys;
    while groups != {}
      invariant groups <= rest.Keys
      invariant selected' == selected + Leftovers(if BlinkMotion in groups then [] else CandidatesIn(rest, BlinkMotion))
      decreases groups
    {
      var group :| group in groups;
      var candidates := rest[group];
      ghost var before := selected';
      for i := 0 to |candidates|
        invariant selected' == before + Leftovers(candidates[..i])
      {
        selected' := selected' + [Unselected(candidates[i])];
        assert candidates[..i + 1] == candidates[..i] + [candidates[i]];
      }
      assert candidates[..|candidates|] == candidates;
      groups := groups - {group};
    }
  }

  // ----- the summary -----

  function Scores(samples: seq<SampleMetadata>): (scores: seq<real>)
    ensures |scores| == |samples| && forall i :: 0 <= i < |samples| ==> scores[i] == samples[i].quality.qualityScore
  {
    if samples == [] then [] else Scores(samples[..|samples| - 1]) + [samples[|samples| - 1].quality.qualityScore]
  }

  function QualitySummaryOf(selected: seq<SampleMetadata>, rejectedCount: nat): QualitySummary {
    var scores := SortByKey(Identity, Scores(selected));
    QualitySummary(|selected|, rejectedCount,
                   if scores == [] then None else Some(RealMath.Sum(scores) / |scores| as real),
                   if scores == [] then None else Some(scores[0]))
  }

  lemma {:induction false} SumIsAtLeast(values: seq<real>, low: real)
    requires forall i :: 0 <= i < |values| ==> values[i] >= low
    ensures RealMath.Sum(values) >= low * |values| as real
  {
    if values != [] {
      SumIsAtLeast(values[..|values| - 1], low);
    }
  }

  lemma FirstOfSortedIsLowest(values: seq<real>)
    requires values != []
    ensures var low := SortByKey(Identity, values)[0];
            && low in values
            && (forall i :: 0 <= i < |values| ==> low <= values[i])
            && (forall i :: 0 <= i < |values| ==> low <= SortByKey(Identity, values)[i])
  {
    var sorted := SortByKey(Identity, values);
    SortIsAPermutation(Identity, values);
    assert sorted[0] in multiset(sorted);
    forall i | 0 <= i < |sorted| ensures sorted[0] <= sorted[i] {
      assert i > 0 ==> Identity(sorted[0]) <= Identity(sorted[i]);
    }
    forall i | 0 <= i < |values| ensures sorted[0] <= values[i] {
      assert values[i] in multiset(values);
      assert values[i] in sorted;
    }
  }

  /** The published minimum is the lowest score of the kept samples, and the average is no lower. */
  lemma SummaryIsTrue(selected: seq<SampleMetadata>, rejectedCount: nat)
    ensures var summary := QualitySummaryOf(selected, rejectedCount);
            && (summary.minimumSelectedQualityScore.Some? <==> selected != [])
            && (summary.averageSelectedQualityScore.Some? <==> selected != [])
            && (selected != [] ==>
                  && (forall i :: 0 <= i < |selected| ==> summary.minimumSelectedQualityScore.value <= selected[i].quality.qualityScore)
                  && (exists i :: 0 <= i < |selected| && summary.minimumSelectedQualityScore.value == selected[i].quality.qualityScore)
                  && summary.minimumSelectedQualityScore.value <= summary.averageSelectedQualityScore.value)
  {
    if selected != [] {
      SummaryOfScores(Scores(selected));
      var low := SortByKey(Identity, Scores(selected))[0];
      var i :| 0 <= i < |selected| && Scores(selected)[i] == low;
      assert selected[i].quality.qualityScore == low;
    }
  }

  /** Sorting changes no sum. */
  lemma {:induction false} SortKeepsSum(plain: seq<real>)
    ensures RealMath.Sum(SortByKey(Identity, plain)) == RealMath.Sum(plain)
  {
    if plain != [] {
      var last := |plain| - 1;
      SortKeepsSum(plain[..last]);
      InsertAddsToSum(SortByKey(Identity, plain[..last]), plain[last]);
    }
  }

  lemma {:induction false} InsertAddsToSum(sorted: seq<real>, x: real)
    ensures RealMath.Sum(Insert(Identity, sorted, x)) == RealMath.Sum(sorted) + x
  {
    if sorted == [] || sorted[|sorted| - 1] <= x {
      assert Insert(Identity, sorted, x)[..|sorted|] == sorted;
    } else {
      var last := |sorted| - 1;
      InsertAddsToSum(sorted[..last], x);
      assert Insert(Identity, sorted, x)[..|sorted|] == Insert(Identity, sorted[..last], x);
    }
  }

  /** The published average is the sum of the kept samples' scores over their number. */
  lemma SummaryAverage(selected: seq<SampleMetadata>, rejectedCount: nat)
    ensures var average := QualitySummaryOf(selected, rejectedCount).averageSelectedQualityScore;
            average == if selected == [] then None else Some(RealMath.Sum(Scores(selected)) / |selected| as real)
  {
    SortKeepsSum(Scores(selected));
  }

  lemma SummaryOfScores(plain: seq<real>)
    requires plain != []
    ensures var scores := SortByKey(Identity, plain);
            && scores[0] in plain && (forall i :: 0 <= i < |plain| ==> scores[0] <= plain[i])
            && scores[0] <= RealMath.Sum(scores) / |scores| as real
  {
    FirstOfSortedIsLowest(plain);
    AverageAboveLowest(SortByKey(Identity, plain));
  }

  lemma AverageAboveLowest(scores: seq<real>)
    requires scores != [] && forall i :: 0 <= i < |scores| ==> scores[0] <= scores[i]
    ensures scores[0] <= RealMath.Sum(scores) / |scores| as real
  {
    SumIsAtLeast(scores, scores[0]);
    AverageIsAtLeast(RealMath.Sum(scores), scores[0], |scores| as real);
  }

  lemma AverageIsAtLeast(sum: real, low: real, n: real)
    requires n > 0.0 && sum >= low * n
    ensures sum / n >= low
  {
    RealMath.DivideBounds(sum, low, sum / n, n);
  }
}
