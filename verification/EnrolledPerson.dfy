/**
 * What all templates of a finished run have in common: each shows a face turned as its group
 * says, and each is like the first frontal one.
 */
module EnrolledPerson {
  import opened RustInts
  import opened Wrappers
  import opened RealMath
  import opened Embeddings
  import opened FaceEngine
  import opened FacePose
  import opened Quality
  import opened EnrollmentSteps
  import opened StableSort
  import opened GreedySelection
  import opened TemplateSelection
  import opened GuidedEnrollment
  import opened EnrollmentOutcome
  import opened EnrollmentReport
  import opened GuidedDriver

  // ----- one frame -----

  /** The steps are named after their groups. */
  function GroupNamedAs(step: GuidedEnrollmentStep): FacePoseGroup {
    match step
    case FrontalPrimary => FacePoseGroup.FrontalPrimary
    case YawLeftMild => FacePoseGroup.YawLeftMild
    case YawRightMild => FacePoseGroup.YawRightMild
    case PitchDownMild => FacePoseGroup.PitchDownMild
    case PitchUpMild => FacePoseGroup.PitchUpMild
    case BlinkMotion => FacePoseGroup.BlinkMotion
  }

  /** Measured from the baselines, the face is upright and turned as the group says, or its eyes close. */
  predicate TurnedAsAsked(group: FacePoseGroup, reference: Reference, raw: Option<FacePoseEstimate>) {
    && raw.Some?
    && -18.0 < raw.value.rollDeg < 18.0
    && var yaw := raw.value.yawDeg - OrElse(reference.yawBaseline, 0.0);
       var pitch := raw.value.pitchDeg - OrElse(reference.pitchBaseline, 0.0);
       match group
       case FrontalPrimary => -24.0 < yaw < 24.0 && -24.0 < pitch < 24.0
       case YawLeftMild => -40.0 < yaw <= -4.0 && -28.0 < pitch < 28.0
       case YawRightMild => 4.0 <= yaw < 40.0 && -28.0 < pitch < 28.0
       case PitchDownMild => 4.0 <= pitch < 34.0 && -30.0 < yaw < 30.0
       case PitchUpMild => -34.0 < pitch <= -4.0 && -30.0 < yaw < 30.0
       case BlinkMotion => EyesClose(raw.value)
       case _ => false
  }

  /**
   * An accepted sample is filed under the group of its step, shows the pose, unless any pose
   * will do, and is like the primary one.
   */
  predicate IsFair(setup: Setup, reference: Reference, e: Entry) {
    e.Accepted? ==>
      && e.candidate.template.poseGroup == GroupNamedAs(e.step)
      && e.candidate.template.userId == setup.userId && e.candidate.template.IsCompatibleWith(setup.model)
      && (setup.config.qualityPolicy.minPoseFitScore > 0.0 ==> TurnedAsAsked(GroupNamedAs(e.step), reference, e.rawPose))
      && (reference.primary.Some? && e.step != GuidedEnrollmentStep.FrontalPrimary ==>
            setup.compare(reference.primary.value, e.candidate.template.embedding) >= setup.config.templateAcceptanceThreshold)
  }

  /** The threshold lies among the similarities that scores can tell apart. */
  predicate Demands(config: Config) {
    0.0 < config.templateAcceptanceThreshold <= 1.0
  }

  lemma AcceptedShotsAreFair(setup: Setup, step: GuidedEnrollmentStep, frameIndex: u32, history: History, shot: Shot, e: Entry)
    requires Demands(setup.config) && LeavingOf(setup, step)(frameIndex, history, shot, e)
    ensures IsFair(setup, ReferenceAfter(history), e) && (e.Accepted? ==> e.step == step)
  {
    var reference, answers := ReferenceAfter(history), shot.answers;
    EntryTellsOfItsFrame(setup.config, setup.compare, reference, setup.model, shot.frame, setup.userId, step, frameIndex,
                         shot.timestampMs, answers);
    if e.Accepted? {
      if setup.config.qualityPolicy.minPoseFitScore > 0.0 {
        AcceptedPose(setup, step, frameIndex, reference, shot);
      }
      ConsistencyIsDemanded(setup.config, setup.compare, reference, shot.frame, step, frameIndex, answers);
    }
  }

  lemma AcceptedPose(setup: Setup, step: GuidedEnrollmentStep, frameIndex: u32, reference: Reference, shot: Shot)
    requires setup.config.qualityPolicy.minPoseFitScore > 0.0
    requires var capture := CaptureOf(setup.config, setup.compare, reference, shot.frame, step, frameIndex, shot.answers);
             capture.Ok? && capture.value.acceptedForStep
    ensures TurnedAsAsked(GroupNamedAs(step), reference, shot.answers.pose)
  {
    WhichPosesFit(step.PoseTarget(), CalibratedPose(reference, shot.answers.pose));
    hide PoseFitScore, FaceSizeScore, FaceRegionBlur, FaceRegionIllumination, AlignmentScore, WeightedAverage, Components, IsIdeal;
  }

  // ----- a whole run -----

  ghost predicate FairHistory(setup: Setup, history: History) {
    forall i :: 0 <= i < |history| ==> IsFair(setup, ReferenceAfter(history[..i]), history[i])
  }

  /** The accepted samples from position `from` on are of one step. */
  predicate OnlyOfStep(history: History, from: nat, step: GuidedEnrollmentStep) {
    forall i :: from <= i < |history| && history[i].Accepted? ==> history[i].step == step
  }

  /** The accepted frontal samples come before all others. */
  predicate FrontalFirst(history: History) {
    forall i, j | 0 <= i < |history| && 0 <= j < |history| ::
      history[i].Accepted? && history[i].step.FrontalPrimary? && history[j].Accepted? && !history[j].step.FrontalPrimary? ==> i < j
  }

  lemma OneMoreEntry(setup: Setup, history: History, e: Entry, from: nat, step: GuidedEnrollmentStep)
    requires FairHistory(setup, history) && IsFair(setup, ReferenceAfter(history), e)
    requires OnlyOfStep(history, from, step) && (e.Accepted? ==> e.step == step)
    ensures FairHistory(setup, history + [e]) && OnlyOfStep(history + [e], from, step)
  {
    hide IsFair, ReferenceAfter;
    forall i | 0 <= i < |history + [e]| ensures IsFair(setup, ReferenceAfter((history + [e])[..i]), (history + [e])[i]) {
      assert (history + [e])[..i] == history[..i];
      assert history[..|history|] == history;
    }
  }

  lemma {:induction false} CapturesStayFair(setup: Setup, step: GuidedEnrollmentStep, frameIndex: u32, before: History,
                                            shots: seq<Shot>, after: History)
    requires Demands(setup.config) && FairHistory(setup, before)
    requires Follows(LeavingOf(setup, step), frameIndex, before, shots, after)
    ensures FairHistory(setup, after) && before <= after && OnlyOfStep(after, |before|, step)
  {
    hide IsFair, LeavingOf, Leaves, ReferenceAfter, FairHistory, OnlyOfStep, Demands;
    if shots == [] {
      NothingAdded(before, step);
    } else {
      var n, init, last := |shots| - 1, after[..|after| - 1], after[|after| - 1];
      CapturesStayFair(setup, step, frameIndex, before, shots[..n], init);
      AcceptedShotsAreFair(setup, step, IndexAfter(frameIndex, n), init, shots[n], last);
      OneMoreEntry(setup, init, last, |before|, step);
      assert after == init + [last];
    }
  }

  lemma NothingAdded(history: History, step: GuidedEnrollmentStep)
    ensures OnlyOfStep(history, |history|, step)
  {
  }

  lemma StepStaysFair(setup: Setup, options: Options, step: GuidedEnrollmentStep, frameIndex: u32, before: History, run: StepRun)
    requires Demands(setup.config) && FairHistory(setup, before)
    requires StepTrace(setup, options, step, frameIndex, before, run.previews, run.shots, run.history, run.report)
    ensures FairHistory(setup, run.history) && before <= run.history && OnlyOfStep(run.history, |before|, step)
  {
    hide FairHistory, OnlyOfStep, Follows, Demands, NotEarlier, ReferenceAfter;
    if run.history == before {
      NothingAdded(before, step);
    }
    if Follows(LeavingOf(setup, step), IndexAfter(frameIndex, |run.previews|), before, run.shots, run.history) {
      CapturesStayFair(setup, step, IndexAfter(frameIndex, |run.previews|), before, run.shots, run.history);
    }
  }

  lemma {:induction false} RunsStayFair(setup: Setup, options: Options, steps: seq<GuidedEnrollmentStep>, runs: seq<StepRun>)
    requires Demands(setup.config) && RunTrace(setup, options, steps, runs)
    requires AllDifferent(steps) && (steps != [] && GuidedEnrollmentStep.FrontalPrimary in steps ==> steps[0].FrontalPrimary?)
    ensures FairHistory(setup, HistoryAfter(runs)) && FrontalFirst(HistoryAfter(runs))
  {
    hide StepTrace, FairHistory, FrontalFirst, OnlyOfStep, Demands;
    if runs == [] {
      EmptyIsFair(setup);
    } else {
      var n, init := |runs| - 1, runs[..|runs| - 1];
      RunsStayFair(setup, options, steps, init);
      StepStaysFair(setup, options, steps[n], FrameIndexAfter(init), HistoryAfter(init), runs[n]);
      if n == 0 {
        AllOfOneStep(HistoryAfter(runs), steps[0]);
      } else {
        assert steps[n] != steps[0];
        LaterStepsFollow(HistoryAfter(init), HistoryAfter(runs), steps[n]);
      }
    }
  }

  lemma EmptyIsFair(setup: Setup)
    ensures FairHistory(setup, []) && FrontalFirst([])
  {
  }

  lemma AllOfOneStep(history: History, step: GuidedEnrollmentStep)
    requires OnlyOfStep(history, 0, step)
    ensures FrontalFirst(history)
  {
  }

  lemma LaterStepsFollow(before: History, after: History, step: GuidedEnrollmentStep)
    requires FrontalFirst(before) && before <= after && OnlyOfStep(after, |before|, step) && !step.FrontalPrimary?
    ensures FrontalFirst(after)
  {
  }

  // ----- one person -----

  /** A candidate of a group comes from an accepted entry of it. */
  lemma {:induction false} CandidateHasEntry(history: History, group: FacePoseGroup, c: CandidateSample) returns (i: nat)
    requires c in CandidatesOf(history, group)
    ensures i < |history| && history[i].Accepted? && history[i].step.PoseGroup() == group && history[i].candidate == c
  {
    var last := |history| - 1;
    if c in CandidatesOf(history[..last], group) {
      i := CandidateHasEntry(history[..last], group, c);
    } else {
      i := last;
    }
  }

  /** An accepted frontal entry sets the primary embedding for good. */
  lemma FrontalSetsPrimary(history: History, m: nat, i: nat)
    requires m < i <= |history| && history[m].Accepted? && history[m].step.FrontalPrimary?
    ensures PrimaryOf(history[..i]).Some? && PrimaryOf(history) == PrimaryOf(history[..i])
  {
    var upTo := history[..m + 1];
    assert upTo[..m] == history[..m] && upTo[m] == history[m];
    assert CandidatesOf(upTo, FacePoseGroup.FrontalPrimary) != [];
    hide CandidatesOf;
    assert upTo <= history[..i] && history[..i] <= history;
    HistoriesOnlyAppend(upTo, history[..i]);
    HistoriesOnlyAppend(history[..i], history);
  }

  /**
   * All accepted samples of a run are of one person: as soon as there is a primary embedding
   * at all, every sample of another step is as similar to it as the configuration demands.
   */
  lemma SamplesAreOfOnePerson(setup: Setup, history: History, i: nat)
    requires FairHistory(setup, history) && FrontalFirst(history) && PrimaryOf(history).Some?
    requires i < |history| && history[i].Accepted? && !history[i].step.FrontalPrimary?
    ensures setup.compare(PrimaryOf(history).value, history[i].candidate.template.embedding) >=
            setup.config.templateAcceptanceThreshold
  {
    var m := FirstFrontal(history);
    hide ReferenceAfter, TurnedAsAsked, GroupNamedAs;
    assert m < i;
    FrontalSetsPrimary(history, m, i);
    PrimaryOfReference(history[..i]);
    hide PrimaryOf, FrontalFirst;
    assert IsFair(setup, ReferenceAfter(history[..i]), history[i]);
  }

  lemma FirstFrontal(history: History) returns (m: nat)
    requires PrimaryOf(history).Some?
    ensures m < |history| && history[m].Accepted? && history[m].step.FrontalPrimary?
  {
    var frontal := CandidatesOf(history, FacePoseGroup.FrontalPrimary);
    m := CandidateHasEntry(history, FacePoseGroup.FrontalPrimary, frontal[0]);
  }

  lemma PrimaryOfReference(history: History)
    ensures ReferenceAfter(history).primary == PrimaryOf(history)
  {
  }

  // ----- the published templates -----

  lemma {:induction false} PickedIsRanked(ranked: seq<CandidateSample>, positions: set<nat>, n: nat, k: nat)
    requires n <= |ranked| && k < |Picked(ranked, positions, n)|
    ensures Picked(ranked, positions, n)[k] in ranked
  {
    if k < |Picked(ranked, positions, n - 1)| {
      PickedIsRanked(ranked, positions, n - 1, k);
    }
  }

  /** A published template of a group is that of one of its candidates. */
  lemma PublishedIsCandidate(config: Config, rule: SimilarityRule, model: FaceModelDescriptor, enrolment: Enrolment,
                             history: History, group: FacePoseGroup, t: FaceTemplate)
    returns (c: CandidateSample)
    requires SoundHistory(config, history) && group in UNLOCK_GROUPS
    requires t in TemplatesOf(TemplateSetOf(config, rule, model, enrolment, history), group)
    ensures c in CandidatesOf(history, group) && c.template == t
  {
    hide TemplateSetOf, SoundHistory, Ranked, TemplatesOf, CandidatesOf;
    var ranked := RankedCandidates(history, group);
    var picked := Picked(ranked, GreedySet(Same(rule), ranked, TargetTemplateCount(group)), |ranked|);
    TemplatesOfGroup(config, rule, model, enrolment, history, group);
    var k :| 0 <= k < |Templates(picked)| && Templates(picked)[k] == t;
    TemplatesAt(picked, k);
    PickedIsRanked(ranked, GreedySet(Same(rule), ranked, TargetTemplateCount(group)), |ranked|, k);
    c := picked[k];
    RankedIsCandidate(history, group, c);
  }

  lemma RankedIsCandidate(history: History, group: FacePoseGroup, c: CandidateSample)
    requires c in RankedCandidates(history, group)
    ensures c in CandidatesOf(history, group)
  {
    SortIsAPermutation(WorseQuality, CandidatesOf(history, group));
    assert c in multiset(RankedCandidates(history, group));
  }

  /** Some sample of the history has become this template; it was turned as the group says and is like the primary one. */
  ghost predicate IsOfThePerson(setup: Setup, history: History, group: FacePoseGroup, t: FaceTemplate) {
    exists i :: 0 <= i < |history| && history[i].Accepted? && history[i].candidate.template == t
                && t.userId == setup.userId && t.IsCompatibleWith(setup.model)
                && (setup.config.qualityPolicy.minPoseFitScore > 0.0 ==>
                      TurnedAsAsked(group, ReferenceAfter(history[..i]), history[i].rawPose))
                && (group.FrontalPrimary?
                    || (PrimaryOf(history).Some?
                        && setup.compare(PrimaryOf(history).value, t.embedding) >= setup.config.templateAcceptanceThreshold))
  }

  lemma PublishedIsOfThePerson(setup: Setup, rule: SimilarityRule, enrolment: Enrolment, history: History, group: FacePoseGroup,
                               t: FaceTemplate)
    requires FairHistory(setup, history) && FrontalFirst(history) && PrimaryOf(history).Some?
    requires SoundHistory(setup.config, history) && group in UNLOCK_GROUPS
    requires t in TemplatesOf(TemplateSetOf(setup.config, rule, setup.model, enrolment, history), group)
    ensures IsOfThePerson(setup, history, group, t)
  {
    var c := PublishedIsCandidate(setup.config, rule, setup.model, enrolment, history, group, t);
    var i := CandidateHasEntry(history, group, c);
    hide TemplateSetOf, TemplatesOf, SoundHistory, ReferenceAfter, TurnedAsAsked, FrontalFirst, PrimaryOf;
    assert IsFair(setup, ReferenceAfter(history[..i]), history[i]);
    assert GroupNamedAs(history[i].step) == group;
    if !group.FrontalPrimary? {
      SamplesAreOfOnePerson(setup, history, i);
    }
  }

  /**
   * The promise of the guided run: every template it publishes shows the face turned as its
   * group says, and all of them are of the person whose frontal face came first.  Partial
   * enrolment may do without frontal faces, and then there is nobody to compare with.
   */
  lemma CompletedRunEnrollsOnePerson(options: Options, sqrt: SquareRoot, compare: (Embedding, Embedding) -> real,
                                     model: FaceModelDescriptor, capabilities: FacePoseCapabilities, enrolment: Enrolment,
                                     history: History, runs: seq<StepRun>, completed: Completed, userId: string,
                                     group: FacePoseGroup, t: FaceTemplate)
    requires Accomplished(options, sqrt, model, capabilities, enrolment, history, runs, completed)
    requires RunTrace(Setup(ConfigFor(options), compare, model, userId), options, SupportedOrderedSteps(capabilities), runs)
    requires HistoryAfter(runs) == history
    requires options.allowPartialEnrollment ==> StoredFor(history, GuidedEnrollmentStep.FrontalPrimary) > 0
    requires group in UNLOCK_GROUPS && t in TemplatesOf(completed.templateSet, group)
    ensures IsOfThePerson(Setup(ConfigFor(options), compare, model, userId), history, group, t)
    ensures completed.templateSet.recognizer == model
  {
    var setup := Setup(ConfigFor(options), compare, model, userId);
    var rule := SimilarityRule(sqrt, setup.config.duplicateSimilarityThreshold);
    RecognizerOfTheSet(setup.config, rule, model, enrolment, history);
    hide TalliesOf, TemplateSetOf, TemplatesOf, IsOfThePerson, StoredFor, RunTrace, PrimaryOf;
    var c := PublishedIsCandidate(setup.config, rule, model, enrolment, history, group, t);
    if !options.allowPartialEnrollment {
      SomeFrontalIsStored(options, capabilities, history, group, c);
    }
    StoredFrontalIsPrimary(history);
    hide RunStands;
    StepsInOrder(capabilities);
    SupportedStepsAreDistinct(capabilities);
    RunsStayFair(setup, options, SupportedOrderedSteps(capabilities), runs);
    PublishedIsOfThePerson(setup, rule, enrolment, history, group, t);
  }

  lemma RecognizerOfTheSet(config: Config, rule: SimilarityRule, model: FaceModelDescriptor, enrolment: Enrolment, history: History)
    ensures TemplateSetOf(config, rule, model, enrolment, history).recognizer == model
  {
    hide KeptSamples, RefusedSamples;
  }

  lemma StoredFrontalIsPrimary(history: History)
    ensures StoredFor(history, GuidedEnrollmentStep.FrontalPrimary) > 0 <==> PrimaryOf(history).Some?
  {
  }

  /** Without partial enrolment a run that has a candidate of any head pose has frontal ones. */
  lemma SomeFrontalIsStored(options: Options, capabilities: FacePoseCapabilities, history: History, group: FacePoseGroup,
                            c: CandidateSample)
    requires var steps := SupportedOrderedSteps(capabilities); StepsSettled(options, steps, |steps|, history)
    requires !options.allowPartialEnrollment && group in UNLOCK_GROUPS && c in CandidatesOf(history, group)
    ensures StoredFor(history, GuidedEnrollmentStep.FrontalPrimary) > 0
  {
    var i := CandidateHasEntry(history, group, c);
    var step := history[i].step;
    assert StoredFor(history, step) > 0 && !step.BlinkMotion?;
    hide *;
    StoredStepsAreSettled(options, SupportedOrderedSteps(capabilities), history, step);
    SupportedStepsAreDistinct(capabilities);
    HeadPosesGoTogether(capabilities, step);
    MandatoryStepIsComplete(options, capabilities, history, GuidedEnrollmentStep.FrontalPrimary);
  }

  lemma StoredStepsAreSettled(options: Options, steps: seq<GuidedEnrollmentStep>, history: History, step: GuidedEnrollmentStep)
    requires StepsSettled(options, steps, |steps|, history) && StoredFor(history, step) > 0
    ensures step in steps && 0 < StoredFor(history, step) <= options.acceptedFramesPerStep
  {
    hide StoredFor;
    if step in steps {
      var k :| 0 <= k < |steps| && steps[k] == step;
      assert StoredAsAsked(options, steps[k], StoredFor(history, steps[k]));
    }
  }

  lemma HeadPosesGoTogether(capabilities: FacePoseCapabilities, step: GuidedEnrollmentStep)
    requires !step.BlinkMotion? && capabilities.SupportsTarget(step.PoseTarget())
    ensures capabilities.SupportsTarget(GuidedEnrollmentStep.FrontalPrimary.PoseTarget())
    ensures !IsOptional(GuidedEnrollmentStep.FrontalPrimary)
  {
  }
}
