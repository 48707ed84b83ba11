/** The report of a finished enrolment: tallies of the templates by pose group and of the rejected samples by reason. */
module EnrollmentReport {
  import opened Wrappers
  import opened FaceEngine
  import opened StableSort
  import opened TemplateSelection
  import opened GuidedEnrollment
  import opened EnrollmentOutcome

  // ----- tallies -----

  datatype Tally<K> = Tally(key: K, count: nat)

  /** How often `key` is marked. */
  function Times<K(==)>(key: K, marks: seq<Option<K>>): nat {
    if marks == [] then 0
    else Times(key, marks[..|marks| - 1]) + if marks[|marks| - 1] == Some(key) then 1 else 0
  }

  /** How many marks there are. */
  function Marked<K>(marks: seq<Option<K>>): nat {
    if marks == [] then 0
    else Marked(marks[..|marks| - 1]) + if marks[|marks| - 1].Some? then 1 else 0
  }

  function Total<K>(tallies: seq<Tally<K>>): nat {
    if tallies == [] then 0 else Total(tallies[..|tallies| - 1]) + tallies[|tallies| - 1].count
  }

  predicate Lists<K(==)>(tallies: seq<Tally<K>>, key: K) {
    exists i :: 0 <= i < |tallies| && tallies[i].key == key
  }

  ghost predicate InOrder<K>(rank: K -> real, tallies: seq<Tally<K>>) {
    forall i, j :: 0 <= i < j < |tallies| ==> rank(tallies[i].key) < rank(tallies[j].key)
  }

  /** The tallies list, in order of rank, every marked key with the number of its marks, and nothing else. */
  ghost predicate TalliesOf<K(!new)>(rank: K -> real, marks: seq<Option<K>>, tallies: seq<Tally<K>>) {
    && InOrder(rank, tallies)
    && (forall i :: 0 <= i < |tallies| ==> tallies[i].count == Times(tallies[i].key, marks) > 0)
    && (forall key: K :: Times(key, marks) > 0 ==> Lists(tallies, key))
  }

  /** Marks of the listed keys only. */
  function TimesAny<K(==)>(tallies: seq<Tally<K>>, marks: seq<Option<K>>): nat {
    if tallies == [] then 0
    else TimesAny(tallies[..|tallies| - 1], marks) + Times(tallies[|tallies| - 1].key, marks)
  }

  lemma {:induction false} NoMarks<K>(tallies: seq<Tally<K>>)
    ensures TimesAny(tallies, []) == 0
  {
    if tallies != [] {
      NoMarks(tallies[..|tallies| - 1]);
    }
  }

  lemma {:induction false} OneMoreMark<K>(rank: K -> real, tallies: seq<Tally<K>>, marks: seq<Option<K>>)
    requires InOrder(rank, tallies) && marks != []
    ensures var last := marks[|marks| - 1];
            TimesAny(tallies, marks) ==
            TimesAny(tallies, marks[..|marks| - 1]) + if last.Some? && Lists(tallies, last.value) then 1 else 0
  {
    if tallies != [] {
      var init, last := tallies[..|tallies| - 1], marks[|marks| - 1];
      OneMoreMark(rank, init, marks);
      if last.Some? {
        ListsOneMore(rank, tallies, last.value);
      }
    }
  }

  lemma ListsOneMore<K>(rank: K -> real, tallies: seq<Tally<K>>, key: K)
    requires InOrder(rank, tallies) && tallies != []
    ensures Lists(tallies, key) <==> Lists(tallies[..|tallies| - 1], key) || tallies[|tallies| - 1].key == key
    ensures tallies[|tallies| - 1].key == key ==> !Lists(tallies[..|tallies| - 1], key)
  {
    var init, last := tallies[..|tallies| - 1], |tallies| - 1;
    assert tallies == init + [tallies[last]];
    ListsAppended(init, tallies[last], key);
    if i :| 0 <= i < |init| && init[i].key == key {
      assert rank(tallies[i].key) < rank(tallies[last].key);
    }
  }

  lemma ListsAppended<K>(tallies: seq<Tally<K>>, tally: Tally<K>, key: K)
    ensures Lists(tallies + [tally], key) <==> Lists(tallies, key) || tally.key == key
  {
    var all := tallies + [tally];
    if i :| 0 <= i < |tallies| && tallies[i].key == key {
      assert all[i].key == key;
    }
    if i :| 0 <= i < |all| && all[i].key == key && i < |tallies| {
      assert tallies[i].key == key;
    }
    assert all[|tallies|] == tally;
  }

  lemma {:induction false} AllMarksAreListed<K>(rank: K -> real, tallies: seq<Tally<K>>, marks: seq<Option<K>>)
    requires InOrder(rank, tallies)
    requires forall i :: 0 <= i < |marks| && marks[i].Some? ==> Lists(tallies, marks[i].value)
    ensures TimesAny(tallies, marks) == Marked(marks)
  {
    if marks == [] {
      NoMarks(tallies);
    } else {
      var init := marks[..|marks| - 1];
      assert forall i :: 0 <= i < |init| ==> init[i] == marks[i];
      AllMarksAreListed(rank, tallies, init);
      OneMoreMark(rank, tallies, marks);
    }
  }

  lemma {:induction false} MarkIsCounted<K>(marks: seq<Option<K>>, i: nat)
    requires i < |marks| && marks[i].Some?
    ensures Times(marks[i].value, marks) > 0
  {
    if i < |marks| - 1 {
      MarkIsCounted(marks[..|marks| - 1], i);
    }
  }

  lemma {:induction false} TotalIsTimesAny<K>(tallies: seq<Tally<K>>, marks: seq<Option<K>>)
    requires forall i :: 0 <= i < |tallies| ==> tallies[i].count == Times(tallies[i].key, marks)
    ensures Total(tallies) == TimesAny(tallies, marks)
  {
    if tallies != [] {
      TotalIsTimesAny(tallies[..|tallies| - 1], marks);
    }
  }

  /** The tallies add up to the number of marks. */
  lemma TalliesAddUp<K(!new)>(rank: K -> real, marks: seq<Option<K>>, tallies: seq<Tally<K>>)
    requires TalliesOf(rank, marks, tallies)
    ensures Total(tallies) == Marked(marks)
  {
    forall i | 0 <= i < |marks| && marks[i].Some? ensures Lists(tallies, marks[i].value) {
      MarkIsCounted(marks, i);
    }
    AllMarksAreListed(rank, tallies, marks);
    TotalIsTimesAny(tallies, marks);
  }

  /** In-order lists of the same keys with the same counts are the same list. */
  lemma {:induction false} SameKeysSameList<K(!new)>(rank: K -> real, count: K -> nat, a: seq<Tally<K>>, b: seq<Tally<K>>)
    requires InOrder(rank, a) && InOrder(rank, b)
    requires forall i :: 0 <= i < |a| ==> a[i].count == count(a[i].key)
    requires forall i :: 0 <= i < |b| ==> b[i].count == count(b[i].key)
    requires forall key: K :: Lists(a, key) <==> Lists(b, key)
    ensures a == b
  {
    if a == [] || b == [] {
      assert b != [] ==> Lists(b, b[0].key);
      assert a != [] ==> Lists(a, a[0].key);
    } else {
      LastIsShared(rank, a, b);
      var a', b' := a[..|a| - 1], b[..|b| - 1];
      forall key: K ensures Lists(a', key) <==> Lists(b', key) {
        ListsOneMore(rank, a, key);
        ListsOneMore(rank, b, key);
      }
      SameKeysSameList(rank, count, a', b');
      assert a == a' + [a[|a| - 1]] && b == b' + [b[|b| - 1]];
    }
  }

  lemma LastIsShared<K(!new)>(rank: K -> real, a: seq<Tally<K>>, b: seq<Tally<K>>)
    requires InOrder(rank, a) && InOrder(rank, b) && a != [] && b != []
    requires forall key: K :: Lists(a, key) <==> Lists(b, key)
    ensures a[|a| - 1].key == b[|b| - 1].key
  {
    var p, q := a[|a| - 1].key, b[|b| - 1].key;
    assert Lists(a, p) && Lists(b, q);
    assert Lists(b, p) && Lists(a, q);
    var i :| 0 <= i < |b| && b[i].key == p;
    var j :| 0 <= j < |a| && a[j].key == q;
    assert i < |b| - 1 ==> rank(p) < rank(q);
    assert j < |a| - 1 ==> rank(q) < rank(p);
  }

  /** What is tallied determines the list, whatever order the keys were collected in. */
  lemma TalliesAreDetermined<K(!new)>(rank: K -> real, marks: seq<Option<K>>, a: seq<Tally<K>>, b: seq<Tally<K>>)
    requires TalliesOf(rank, marks, a) && TalliesOf(rank, marks, b)
    ensures a == b
  {
    forall key: K ensures Lists(a, key) <==> Lists(b, key) {
      if i :| 0 <= i < |a| && a[i].key == key {
        assert Times(key, marks) > 0;
      }
      if i :| 0 <= i < |b| && b[i].key == key {
        assert Times(key, marks) > 0;
      }
    }
    SameKeysSameList(rank, key => Times(key, marks), a, b);
  }

  // ----- counting and listing -----

  function ByRank<K>(rank: K -> real): Tally<K> -> real {
    (tally: Tally<K>) => rank(tally.key)
  }

  /** Counts the marks of every key. */
  method CountMarks<K(==, !new)>(marks: seq<Option<K>>) returns (counts: map<K, nat>)
    ensures forall key: K :: key in counts <==> Times(key, marks) > 0
    ensures forall key :: key in counts ==> counts[key] == Times(key, marks)
  {
    counts := map[];
    for n := 0 to |marks|
      invariant forall key: K :: key in counts <==> Times(key, marks[..n]) > 0
      invariant forall key :: key in counts ==> counts[key] == Times(key, marks[..n])
    {
      assert marks[..n + 1][..n] == marks[..n];
      if marks[n].Some? {
        var key := marks[n].value;
        counts := counts[key := (if key in counts then counts[key] else 0) + 1];
      }
    }
    assert marks[..|marks|] == marks;
  }

  /** Lists the counts, collected in any order, in order of rank. */
  method ListCounts<K(==, !new)>(rank: K -> real, ghost marks: seq<Option<K>>, counts: map<K, nat>) returns (tallies: seq<Tally<K>>)
    requires forall a: K, b: K :: rank(a) == rank(b) ==> a == b
    requires forall key: K :: key in counts <==> Times(key, marks) > 0
    requires forall key :: key in counts ==> counts[key] == Times(key, marks)
    ensures TalliesOf(rank, marks, tallies)
  {
    var collected: seq<Tally<K>> := [];
    var keys := counts.Keys;
    while keys != {}
      invariant keys <= counts.Keys
      invariant forall i, j :: 0 <= i < j < |collected| ==> collected[i].key != collected[j].key
      invariant forall i :: 0 <= i < |collected| ==>
                              collected[i].key in counts.Keys - keys && collected[i].count == counts[collected[i].key]
      invariant forall key :: key in counts.Keys - keys ==> Lists(collected, key)
      decreases keys
    {
      var key :| key in keys;
      forall other: K ensures Lists(collected + [Tally(key, counts[key])], other) <==> Lists(collected, other) || other == key {
        ListsAppended(collected, Tally(key, counts[key]), other);
      }
      collected := collected + [Tally(key, counts[key])];
      keys := keys - {key};
    }
    tallies := SortByKey(ByRank(rank), collected);
    SortedTallies(rank, collected, tallies);
    forall i | 0 <= i < |tallies| ensures tallies[i].count == Times(tallies[i].key, marks) > 0 {
      assert tallies[i] in tallies;
      assert tallies[i] in collected;
    }
  }

  function HasKey<K(==)>(key: K): Tally<K> -> bool {
    (tally: Tally<K>) => tally.key == key
  }

  lemma {:induction false} AtMostOne<T>(p: T -> bool, s: seq<T>)
    requires forall i, j :: 0 <= i < j < |s| ==> !(p(s[i]) && p(s[j]))
    ensures |Filter(p, s)| <= 1
  {
    if s != [] {
      var init, last := s[..|s| - 1], |s| - 1;
      AtMostOne(p, init);
      if p(s[last]) {
        FilterNothing(p, init);
      }
    }
  }

  lemma {:induction false} AtLeastTwo<T>(p: T -> bool, s: seq<T>, i: nat, j: nat)
    requires i < j < |s| && p(s[i]) && p(s[j])
    ensures |Filter(p, s)| >= 2
  {
    var init := s[..|s| - 1];
    if j < |s| - 1 {
      AtLeastTwo(p, init, i, j);
    } else {
      FilterKeeps(p, init);
      assert init[i] in Filter(p, init);
    }
  }

  lemma KeysStayDifferent<K>(rank: K -> real, collected: seq<Tally<K>>, i: nat, j: nat)
    requires forall i, j :: 0 <= i < j < |collected| ==> collected[i].key != collected[j].key
    requires i < j < |collected|
    ensures SortByKey(ByRank(rank), collected)[i].key != SortByKey(ByRank(rank), collected)[j].key
  {
    var tallies := SortByKey(ByRank(rank), collected);
    var p := HasKey(tallies[i].key);
    AtMostOne(p, collected);
    SortCount(ByRank(rank), collected, p);
    if tallies[i].key == tallies[j].key {
      AtLeastTwo(p, tallies, i, j);
    }
  }

  /** Sorting different keys by rank puts them in order and keeps what is listed. */
  lemma SortedTallies<K(!new)>(rank: K -> real, collected: seq<Tally<K>>, tallies: seq<Tally<K>>)
    requires forall a: K, b: K :: rank(a) == rank(b) ==> a == b
    requires forall i, j :: 0 <= i < j < |collected| ==> collected[i].key != collected[j].key
    requires tallies == SortByKey(ByRank(rank), collected)
    ensures InOrder(rank, tallies)
    ensures forall tally :: tally in tallies <==> tally in collected
    ensures forall key: K :: Lists(collected, key) ==> Lists(tallies, key)
  {
    SortKeepsMembers(ByRank(rank), collected);
    SortIsAPermutation(ByRank(rank), collected);
    hide SortByKey, ByRank;
    forall key: K | Lists(collected, key) ensures Lists(tallies, key) {
      var i :| 0 <= i < |collected| && collected[i].key == key;
      assert collected[i] in tallies;
    }
    forall i, j | 0 <= i < j < |tallies| ensures rank(tallies[i].key) < rank(tallies[j].key) {
      assert ByRank(rank)(tallies[i]) <= ByRank(rank)(tallies[j]);
      ByRankIsTheRank(rank, tallies[i]);
      ByRankIsTheRank(rank, tallies[j]);
      KeysStayDifferent(rank, collected, i, j);
    }
  }

  lemma ByRankIsTheRank<K>(rank: K -> real, tally: Tally<K>)
    ensures ByRank(rank)(tally) == rank(tally.key)
  {
  }

  lemma SortKeepsMembers<T>(key: T -> real, s: seq<T>)
    ensures forall x :: x in SortByKey(key, s) <==> x in s
  {
    SortIsAPermutation(key, s);
    forall x ensures x in SortByKey(key, s) <==> x in s {
      assert x in SortByKey(key, s) <==> x in multiset(SortByKey(key, s));
      assert x in s <==> x in multiset(s);
    }
  }

  // ----- the report -----

  datatype GuidedEnrollmentReport = GuidedEnrollmentReport(
    enrollmentId: string,
    userId: string,
    selectedTemplateCount: nat,
    rejectedSampleCount: nat,
    poseGroupCounts: seq<Tally<FacePoseGroup>>,
    rejectReasonCounts: seq<Tally<FaceSampleRejectReason>>,
    qualitySummary: QualitySummary)

  function PoseGroupSortKey(group: FacePoseGroup): real {
    match group
    case FrontalPrimary => 0.0
    case FrontalVariant => 1.0
    case YawLeftMild => 2.0
    case YawRightMild => 3.0
    case PitchDownMild => 4.0
    case PitchUpMild => 5.0
    case BlinkMotion => 6.0
    case HardPoseDiagnostic => 7.0
    case RejectedQuality => 8.0
  }

  /** The groups in the order in which a report lists them. */
  const REPORTED_GROUPS: seq<FacePoseGroup> :=
    [FrontalPrimary, FrontalVariant, YawLeftMild, YawRightMild, PitchDownMild, PitchUpMild, BlinkMotion, HardPoseDiagnostic,
     RejectedQuality]

  /** Groups listed one behind the other stand in this order. */
  lemma GroupsAreListedInOrder(tallies: seq<Tally<FacePoseGroup>>, i: nat, j: nat, a: nat, b: nat)
    requires InOrder(PoseGroupSortKey, tallies) && i < j < |tallies| && a < |REPORTED_GROUPS| && b < |REPORTED_GROUPS|
    requires tallies[i].key == REPORTED_GROUPS[a] && tallies[j].key == REPORTED_GROUPS[b]
    ensures a < b
  {
  }

  function DebugName(reason: FaceSampleRejectReason): string {
    match reason
    case NoFaceDetected => "NoFaceDetected"
    case MultipleFacesDetected => "MultipleFacesDetected"
    case FaceTooSmall => "FaceTooSmall"
    case FaceTooLargeOrClipped => "FaceTooLargeOrClipped"
    case BlurTooHigh => "BlurTooHigh"
    case UnderExposed => "UnderExposed"
    case OverExposed => "OverExposed"
    case BacklightTooStrong => "BacklightTooStrong"
    case LandmarkUnstable => "LandmarkUnstable"
    case PoseOutOfExpectedRange => "PoseOutOfExpectedRange"
    case AlignmentFailed => "AlignmentFailed"
    case EmbeddingInconsistentWithPrimary => "EmbeddingInconsistentWithPrimary"
    case DuplicateTooSimilar => "DuplicateTooSimilar"
  }

  /** The place of a reason in the alphabetical order of the names. */
  function PlaceByName(reason: FaceSampleRejectReason): real {
    match reason
    case AlignmentFailed => 0.0
    case BacklightTooStrong => 1.0
    case BlurTooHigh => 2.0
    case DuplicateTooSimilar => 3.0
    case EmbeddingInconsistentWithPrimary => 4.0
    case FaceTooLargeOrClipped => 5.0
    case FaceTooSmall => 6.0
    case LandmarkUnstable => 7.0
    case MultipleFacesDetected => 8.0
    case NoFaceDetected => 9.0
    case OverExposed => 10.0
    case PoseOutOfExpectedRange => 11.0
    case UnderExposed => 12.0
  }

  /** Lexicographic order of strings, by the first difference. */
  predicate NameBefore(a: string, b: string) {
    exists n :: 0 <= n < |a| && n < |b| && a[..n] == b[..n] && a[n] < b[n]
  }

  /** Two names that differ at position `n`, behind a common beginning. */
  lemma DifferAt(a: string, b: string, n: nat)
    requires n < |a| && n < |b| && a[..n] == b[..n] && a[n] < b[n]
    ensures NameBefore(a, b)
  {
  }

  lemma PlaceFollowsTheNames(a: FaceSampleRejectReason, b: FaceSampleRejectReason)
    requires PlaceByName(a) < PlaceByName(b)
    ensures NameBefore(DebugName(a), DebugName(b))
  {
    if a.BacklightTooStrong? && b.BlurTooHigh? {
      DifferAt(DebugName(a), DebugName(b), 1);
    } else if a.FaceTooLargeOrClipped? && b.FaceTooSmall? {
      DifferAt(DebugName(a), DebugName(b), 7);
    } else {
      assert DebugName(a)[..0] == DebugName(b)[..0];
      DifferAt(DebugName(a), DebugName(b), 0);
    }
  }

  function GroupMark(template: FaceTemplate): Option<FacePoseGroup> {
    if template.selectedForUnlock then Some(template.poseGroup) else None
  }

  function ReasonMark(sample: SampleMetadata): Option<FaceSampleRejectReason> {
    sample.rejectReason
  }

  lemma {:induction false} MarkedIsFiltered<X, K>(mark: X -> Option<K>, marked: X -> bool, s: seq<X>)
    requires forall i :: 0 <= i < |s| ==> (mark(s[i]).Some? <==> marked(s[i]))
    ensures Marked(Map(mark, s)) == |Filter(marked, s)|
  {
    if s != [] {
      MarkedIsFiltered(mark, marked, s[..|s| - 1]);
      assert Map(mark, s)[..|s| - 1] == Map(mark, s[..|s| - 1]);
    }
  }

  /** Builds the report; what each tally lists, and in which order, is determined by the template set. */
  method BuildGuidedEnrollmentReport(templateSet: FaceTemplateSet) returns (report: GuidedEnrollmentReport)
    ensures report.enrollmentId == templateSet.enrollmentId && report.userId == templateSet.userId
    ensures report.qualitySummary == templateSet.qualitySummary
    ensures report.selectedTemplateCount == |templateSet.templates|
    ensures report.rejectedSampleCount == RejectedCount(templateSet.sampleMetadata)
    ensures TalliesOf(PoseGroupSortKey, Map(GroupMark, templateSet.templates), report.poseGroupCounts)
    ensures TalliesOf(PlaceByName, Map(ReasonMark, templateSet.sampleMetadata), report.rejectReasonCounts)
  {
    var groupMarks, reasonMarks := Map(GroupMark, templateSet.templates), Map(ReasonMark, templateSet.sampleMetadata);
    var poseCounts := CountMarks(groupMarks);
    var rejectCounts := CountMarks(reasonMarks);
    var poseGroupCounts := ListCounts(PoseGroupSortKey, groupMarks, poseCounts);
    var rejectReasonCounts := ListCounts(PlaceByName, reasonMarks, rejectCounts);
    report := GuidedEnrollmentReport(templateSet.enrollmentId, templateSet.userId, |templateSet.templates|,
                                     RejectedCount(templateSet.sampleMetadata), poseGroupCounts, rejectReasonCounts,
                                     templateSet.qualitySummary);
  }

  /** The tallies of any report add up: to the unlocking templates and to the rejected samples. */
  lemma ReportAddsUp(templateSet: FaceTemplateSet, poseGroupCounts: seq<Tally<FacePoseGroup>>,
                     rejectReasonCounts: seq<Tally<FaceSampleRejectReason>>)
    requires TalliesOf(PoseGroupSortKey, Map(GroupMark, templateSet.templates), poseGroupCounts)
    requires TalliesOf(PlaceByName, Map(ReasonMark, templateSet.sampleMetadata), rejectReasonCounts)
    ensures Total(poseGroupCounts) == |templateSet.SelectedTemplates()|
    ensures Total(rejectReasonCounts) == RejectedCount(templateSet.sampleMetadata)
  {
    TalliesAddUp(PoseGroupSortKey, Map(GroupMark, templateSet.templates), poseGroupCounts);
    TalliesAddUp(PlaceByName, Map(ReasonMark, templateSet.sampleMetadata), rejectReasonCounts);
    MarkedIsFiltered(GroupMark, (template: FaceTemplate) => template.selectedForUnlock, templateSet.templates);
    MarkedIsFiltered(ReasonMark, HasReason(), templateSet.sampleMetadata);
  }

  /** The report of a finished enrolment agrees with its summary and its templates. */
  lemma ReportAgreesWithSummary(config: Config, rule: SimilarityRule, model: FaceModelDescriptor, enrolment: Enrolment,
                                history: History, poseGroupCounts: seq<Tally<FacePoseGroup>>,
                                rejectReasonCounts: seq<Tally<FaceSampleRejectReason>>)
    requires SoundHistory(config, history)
    requires var templateSet := TemplateSetOf(config, rule, model, enrolment, history);
             && TalliesOf(PoseGroupSortKey, Map(GroupMark, templateSet.templates), poseGroupCounts)
             && TalliesOf(PlaceByName, Map(ReasonMark, templateSet.sampleMetadata), rejectReasonCounts)
    ensures var templateSet := TemplateSetOf(config, rule, model, enrolment, history);
            && Total(poseGroupCounts) == |templateSet.templates|
            && Total(rejectReasonCounts) == templateSet.qualitySummary.rejectedSampleCount
               == RejectedCount(templateSet.sampleMetadata)
  {
    var templateSet := TemplateSetOf(config, rule, model, enrolment, history);
    ReportAddsUp(templateSet, poseGroupCounts, rejectReasonCounts);
    TemplatesAreFitForUnlock(config, rule, model, enrolment, history);
    SummaryCounts(config, rule, model, enrolment, history);
  }

  // ----- the order of the templates -----

  predicate AllOfGroup(candidates: seq<CandidateSample>, group: FacePoseGroup) {
    forall i :: 0 <= i < |candidates| ==> candidates[i].template.poseGroup == group
  }

  lemma {:induction false} ChosenAmongOfGroup(rule: SimilarityRule, ranked: seq<CandidateSample>, cap: nat, n: nat, group: FacePoseGroup)
    requires n <= |ranked| && AllOfGroup(ranked, group)
    ensures AllOfGroup(ChosenAmong(rule, ranked, cap, n), group)
  {
    if n > 0 {
      ChosenAmongOfGroup(rule, ranked, cap, n - 1, group);
    }
  }

  lemma ChosenAreOfGroup(config: Config, rule: SimilarityRule, history: History, group: FacePoseGroup)
    requires SoundHistory(config, history)
    ensures AllOfGroup(ChosenOf(rule, StoreOf(history), group), group)
  {
    var candidates := CandidatesOf(history, group);
    StoreHoldsTheCandidates(history, group);
    CandidatesAreSound(config, history, group);
    SortKeepsMembers(WorseQuality, candidates);
    forall i | 0 <= i < |Ranked(candidates)| ensures Ranked(candidates)[i].template.poseGroup == group {
      assert Ranked(candidates)[i] in SortByKey(WorseQuality, candidates);
      assert Ranked(candidates)[i] in candidates;
    }
    ChosenAmongOfGroup(rule, Ranked(candidates), TargetTemplateCount(group), |candidates|, group);
  }

  /** The candidates stand in the order in which reports list their groups, and below the place `n`. */
  predicate StandInOrder(candidates: seq<CandidateSample>, n: nat) {
    && (forall i :: 0 <= i < |candidates| ==> PoseGroupSortKey(candidates[i].template.poseGroup) < n as real)
    && (forall i, j :: 0 <= i < j < |candidates| ==>
          PoseGroupSortKey(candidates[i].template.poseGroup) <= PoseGroupSortKey(candidates[j].template.poseGroup))
  }

  lemma OneGroupMore(before: seq<CandidateSample>, added: seq<CandidateSample>, n: nat, group: FacePoseGroup)
    requires StandInOrder(before, n) && AllOfGroup(added, group) && PoseGroupSortKey(group) == n as real
    ensures StandInOrder(before + added, n + 1)
  {
    hide PoseGroupSortKey;
  }

  lemma {:induction false} ChosenStandInOrder(config: Config, rule: SimilarityRule, history: History, n: nat)
    requires SoundHistory(config, history) && n <= |UNLOCK_GROUPS|
    ensures StandInOrder(Chosen(rule, StoreOf(history), UNLOCK_GROUPS[..n]), n)
  {
    hide ChosenOf, SoundHistory, StandInOrder, AllOfGroup;
    if n == 0 {
      assert UNLOCK_GROUPS[..0] == [];
      NoneStandInOrder();
    } else {
      ChosenStandInOrder(config, rule, history, n - 1);
      assert UNLOCK_GROUPS[..n][..n - 1] == UNLOCK_GROUPS[..n - 1];
      ChosenAreOfGroup(config, rule, history, UNLOCK_GROUPS[n - 1]);
      assert PoseGroupSortKey(UNLOCK_GROUPS[n - 1]) == (n - 1) as real;
      OneGroupMore(Chosen(rule, StoreOf(history), UNLOCK_GROUPS[..n - 1]), ChosenOf(rule, StoreOf(history), UNLOCK_GROUPS[n - 1]),
                   n - 1, UNLOCK_GROUPS[n - 1]);
    }
  }

  lemma NoneStandInOrder()
    ensures StandInOrder([], 0)
  {
  }

  /** The published templates stand in the order in which the report lists their groups. */
  lemma TemplatesStandInOrder(config: Config, rule: SimilarityRule, model: FaceModelDescriptor, enrolment: Enrolment,
                              history: History, i: nat, j: nat)
    requires SoundHistory(config, history)
    requires i < j < |TemplateSetOf(config, rule, model, enrolment, history).templates|
    ensures var templates := TemplateSetOf(config, rule, model, enrolment, history).templates;
            PoseGroupSortKey(templates[i].poseGroup) <= PoseGroupSortKey(templates[j].poseGroup)
  {
    hide SoundHistory, Chosen, PoseGroupSortKey, KeptSamples, RefusedSamples;
    var chosen := Chosen(rule, StoreOf(history), UNLOCK_GROUPS);
    assert UNLOCK_GROUPS[..6] == UNLOCK_GROUPS;
    ChosenStandInOrder(config, rule, history, 6);
    TemplatesAt(chosen, i);
    TemplatesAt(chosen, j);
  }
}
