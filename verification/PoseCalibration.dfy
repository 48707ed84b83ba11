/**
 * What the frontal baselines are for: once they are set, the zero of the camera's head pose
 * angles decides nothing.  Shifting every raw yaw and pitch by a constant changes no verdict.
 */
module PoseCalibration {
  import opened RustInts
  import opened Wrappers
  import opened Embeddings
  import opened FaceEngine
  import opened FacePose
  import opened Quality
  import opened EnrollmentSteps
  import opened StableSort
  import opened TemplateSelection
  import opened GuidedEnrollment
  import opened GuidedDriver

  /** How far the zero of the angles is moved. */
  datatype Offset = Offset(yaw: real, pitch: real)

  function MovedPose(pose: FacePoseEstimate, offset: Offset): FacePoseEstimate {
    pose.(yawDeg := pose.yawDeg + offset.yaw, pitchDeg := pose.pitchDeg + offset.pitch)
  }

  function MovedRaw(raw: Option<FacePoseEstimate>, offset: Offset): Option<FacePoseEstimate> {
    match raw
    case None => None
    case Some(pose) => Some(MovedPose(pose, offset))
  }

  function MovedAngle(angle: Option<real>, d: real): Option<real> {
    match angle
    case None => None
    case Some(a) => Some(a + d)
  }

  function MovedReference(reference: Reference, offset: Offset): Reference {
    Reference(reference.primary, MovedAngle(reference.yawBaseline, offset.yaw), MovedAngle(reference.pitchBaseline, offset.pitch))
  }

  function MovedAnswers(answers: ProviderAnswers, offset: Offset): ProviderAnswers {
    answers.(pose := MovedRaw(answers.pose, offset))
  }

  predicate HasBaselines(reference: Reference) {
    reference.yawBaseline.Some? && reference.pitchBaseline.Some?
  }

  // ----- one frame -----

  /** Moving the baselines and the raw pose together changes neither a capture nor a preview. */
  lemma OffsetDecidesNothing(config: Config, compare: (Embedding, Embedding) -> real, reference: Reference, frame: VideoFrame,
                             step: GuidedEnrollmentStep, frameIndex: u32, answers: ProviderAnswers, offset: Offset)
    requires frame.Valid() && HasBaselines(reference)
    ensures CaptureOf(config, compare, MovedReference(reference, offset), frame, step, frameIndex, MovedAnswers(answers, offset)) ==
            CaptureOf(config, compare, reference, frame, step, frameIndex, answers)
    ensures PreviewOf(config, compare, MovedReference(reference, offset), frame, step, frameIndex, MovedAnswers(answers, offset)) ==
            PreviewOf(config, compare, reference, frame, step, frameIndex, answers)
  {
    hide QualityOf, VerdictOn, ConsistencyScore;
    assert CalibratedPose(MovedReference(reference, offset), MovedRaw(answers.pose, offset)) == CalibratedPose(reference, answers.pose);
  }

  /** The pose that an observation reports: the raw one without baselines, and otherwise the deviation from them. */
  lemma ObservedPoseIsTheDeviation(config: Config, compare: (Embedding, Embedding) -> real, reference: Reference, frame: VideoFrame,
                                   step: GuidedEnrollmentStep, frameIndex: u32, answers: ProviderAnswers)
    requires frame.Valid() && answers.detection.Ok? && |answers.detection.value| == 1 && answers.extraction.Ok?
    ensures var capture := CaptureOf(config, compare, reference, frame, step, frameIndex, answers);
            var preview := PreviewOf(config, compare, reference, frame, step, frameIndex, answers);
            && capture.Ok? && preview.Ok? && preview.value.poseEstimate == capture.value.poseEstimate
            && (reference.yawBaseline.None? && reference.pitchBaseline.None? ==> capture.value.poseEstimate == answers.pose)
            && (HasBaselines(reference) && answers.pose.Some?
                && answers.pose.value.yawDeg == reference.yawBaseline.value
                && answers.pose.value.pitchDeg == reference.pitchBaseline.value ==>
                  && capture.value.poseEstimate.Some?
                  && capture.value.poseEstimate.value == answers.pose.value.(yawDeg := 0.0, pitchDeg := 0.0))
  {
    hide QualityOf, VerdictOn, ConsistencyScore;
  }

  // ----- histories -----

  /** The same sample, apart from the angles it was taken at. */
  predicate SameButAngles(m: SampleMetadata, m': SampleMetadata) {
    m' == m.(poseYawDeg := m'.poseYawDeg, posePitchDeg := m'.posePitchDeg)
  }

  /** The same verdict on the same sample, with the raw pose moved. */
  predicate EntryMoved(e: Entry, e': Entry, offset: Offset) {
    match e
    case Accepted(step, c, raw) =>
      && e'.Accepted? && e'.step == step && e'.rawPose == MovedRaw(raw, offset)
      && e'.candidate.template == c.template && SameButAngles(c.metadata, e'.candidate.metadata)
    case Rejected(m) => e'.Rejected? && SameButAngles(m, e'.metadata)
  }

  predicate HistoryMoved(h: History, h': History, offset: Offset) {
    |h'| == |h| && forall i :: 0 <= i < |h| ==> EntryMoved(h[i], h'[i], offset)
  }

  function MovedPoses(poses: seq<FacePoseEstimate>, offset: Offset): (moved: seq<FacePoseEstimate>)
    ensures |moved| == |poses| && forall i :: 0 <= i < |poses| ==> moved[i] == MovedPose(poses[i], offset)
  {
    if poses == [] then [] else MovedPoses(poses[..|poses| - 1], offset) + [MovedPose(poses[|poses| - 1], offset)]
  }

  lemma {:induction false} FrontalPosesMove(h: History, h': History, offset: Offset)
    requires HistoryMoved(h, h', offset)
    ensures FrontalPoses(h') == MovedPoses(FrontalPoses(h), offset)
  {
    if h != [] {
      var last := |h| - 1;
      PrefixMoved(h, h', offset);
      FrontalPosesMove(h[..last], h'[..last], offset);
      assert EntryMoved(h[last], h'[last], offset);
    }
  }

  lemma PrefixMoved(h: History, h': History, offset: Offset)
    requires HistoryMoved(h, h', offset) && h != []
    ensures HistoryMoved(h[..|h| - 1], h'[..|h| - 1], offset)
  {
    var init, init' := h[..|h| - 1], h'[..|h| - 1];
    assert forall i :: 0 <= i < |init| ==> init[i] == h[i] && init'[i] == h'[i];
  }

  lemma {:induction false} PrimaryStays(h: History, h': History, offset: Offset)
    requires HistoryMoved(h, h', offset)
    ensures var c, c' := CandidatesOf(h, FacePoseGroup.FrontalPrimary), CandidatesOf(h', FacePoseGroup.FrontalPrimary);
            |c'| == |c| && forall i :: 0 <= i < |c| ==> c'[i].template == c[i].template
  {
    if h != [] {
      var last := |h| - 1;
      PrefixMoved(h, h', offset);
      PrimaryStays(h[..last], h'[..last], offset);
      assert EntryMoved(h[last], h'[last], offset);
    }
  }

  lemma AnglesAreRaised(poses: seq<FacePoseEstimate>, offset: Offset)
    ensures Yaws(MovedPoses(poses, offset)) == Raised(Yaws(poses), offset.yaw)
    ensures Pitches(MovedPoses(poses, offset)) == Raised(Pitches(poses), offset.pitch)
  {
    var moved := MovedPoses(poses, offset);
    var yaws, pitches := Yaws(moved), Pitches(moved);
    var raisedYaws, raisedPitches := Raised(Yaws(poses), offset.yaw), Raised(Pitches(poses), offset.pitch);
    hide MovedPoses, Yaws, Pitches, Raised;
    assert forall i :: 0 <= i < |poses| ==> yaws[i] == raisedYaws[i];
    assert forall i :: 0 <= i < |poses| ==> pitches[i] == raisedPitches[i];
  }

  lemma BaselineMoves(poses: seq<FacePoseEstimate>, offset: Offset)
    ensures BaselineOf(Yaws(MovedPoses(poses, offset))) == MovedAngle(BaselineOf(Yaws(poses)), offset.yaw)
    ensures BaselineOf(Pitches(MovedPoses(poses, offset))) == MovedAngle(BaselineOf(Pitches(poses)), offset.pitch)
  {
    hide Median, Yaws, Pitches, MovedPoses, Raised;
    AnglesAreRaised(poses, offset);
    if |poses| >= MIN_FRONTAL_POSE_BASELINE_SAMPLES {
      MedianIsRaised(Yaws(poses), offset.yaw);
      MedianIsRaised(Pitches(poses), offset.pitch);
    }
  }

  /** Moving all raw poses of a history moves its baselines along and leaves its primary embedding. */
  lemma ReferenceMoves(h: History, h': History, offset: Offset)
    requires HistoryMoved(h, h', offset)
    ensures ReferenceAfter(h') == MovedReference(ReferenceAfter(h), offset)
  {
    hide CandidatesOf, FrontalPoses, Median, Yaws, Pitches, MovedPoses;
    FrontalPosesMove(h, h', offset);
    PrimaryStays(h, h', offset);
    BaselinePosesMove(h, h', offset);
    BaselineMoves(BaselinePoses(h), offset);
  }

  lemma BaselinePosesMove(h: History, h': History, offset: Offset)
    requires FrontalPoses(h') == MovedPoses(FrontalPoses(h), offset)
    ensures BaselinePoses(h') == MovedPoses(BaselinePoses(h), offset)
  {
    hide FrontalPoses;
    assert BaselinePoses(h') == MovedPoses(BaselinePoses(h), offset);
  }

  /** Once the baselines are set, a frame leaves the same behind, verdict included, wherever the zero is. */
  lemma FrameIsJudgedAlike(setup: Setup, step: GuidedEnrollmentStep, frameIndex: u32, h: History, h': History, shot: Shot, offset: Offset)
    requires HistoryMoved(h, h', offset) && HasBaselines(ReferenceAfter(h))
    ensures var moved := MovedAnswers(shot.answers, offset);
            var capture := CaptureOf(setup.config, setup.compare, ReferenceAfter(h), shot.frame, step, frameIndex, shot.answers);
            var capture' := CaptureOf(setup.config, setup.compare, ReferenceAfter(h'), shot.frame, step, frameIndex, moved);
            && capture' == capture
            && PreviewOf(setup.config, setup.compare, ReferenceAfter(h'), shot.frame, step, frameIndex, moved) ==
               PreviewOf(setup.config, setup.compare, ReferenceAfter(h), shot.frame, step, frameIndex, shot.answers)
            && (capture.Ok? ==>
                  EntryMoved(
                    EntryFor(setup.config, setup.compare, ReferenceAfter(h), setup.model, shot.frame, setup.userId, step, frameIndex,
                             shot.timestampMs, shot.answers),
                    EntryFor(setup.config, setup.compare, ReferenceAfter(h'), setup.model, shot.frame, setup.userId, step, frameIndex,
                             shot.timestampMs, moved), offset))
  {
    hide QualityOf, VerdictOn, ConsistencyScore, ReferenceAfter;
    var moved := MovedAnswers(shot.answers, offset);
    ReferenceMoves(h, h', offset);
    OffsetDecidesNothing(setup.config, setup.compare, ReferenceAfter(h), shot.frame, step, frameIndex, shot.answers, offset);
    assert CalibratedPose(ReferenceAfter(h'), moved.pose) == CalibratedPose(ReferenceAfter(h), shot.answers.pose);
  }

  function MovedShots(shots: seq<Shot>, offset: Offset): (moved: seq<Shot>)
    ensures |moved| == |shots|
  {
    if shots == [] then []
    else
      var last := shots[|shots| - 1];
      MovedShots(shots[..|shots| - 1], offset) + [last.(answers := MovedAnswers(last.answers, offset))]
  }

  /**
   * The law for whole captures: frames observed after the baselines are set leave the same
   * history behind, entry by entry, when all raw poses, those of the baselines and those of
   * the frames, are moved by the same offset.
   */
  lemma {:induction false} CapturesAreJudgedAlike(setup: Setup, step: GuidedEnrollmentStep, frameIndex: u32, before: History,
                                                  before': History, shots: seq<Shot>, after: History, offset: Offset)
    returns (after': History)
    requires HistoryMoved(before, before', offset) && HasBaselines(ReferenceAfter(before))
    requires Follows(LeavingOf(setup, step), frameIndex, before, shots, after)
    ensures Follows(LeavingOf(setup, step), frameIndex, before', MovedShots(shots, offset), after')
    ensures HistoryMoved(after, after', offset) && before <= after
  {
    hide ReferenceAfter, Leaves, LeavingOf, HistoryMoved, EntryMoved, HasBaselines, MovedShots, Follows, MovedEntry, MovedAnswers;
    if shots == [] {
      NoShots(LeavingOf(setup, step), frameIndex, before, before', after);
      assert MovedShots(shots, offset) == [];
      after' := before';
    } else {
      LastShot(LeavingOf(setup, step), frameIndex, before, shots, after);
      var n, init := |shots| - 1, after[..|after| - 1];
      var shot, index := shots[n], IndexAfter(frameIndex, n);
      var init' := CapturesAreJudgedAlike(setup, step, frameIndex, before, before', shots[..n], init, offset);
      BaselinesStay(before, init);
      after' := init' + [MovedEntry(setup, step, index, init, init', shot, after[|after| - 1], offset)];
      MovedShotsEnd(shots, offset);
      ThenOneMore(LeavingOf(setup, step), frameIndex, before', MovedShots(shots, offset), init', after'[|init'|]);
      OneMoreMoved(init, init', after[|after| - 1], after'[|after'| - 1], offset);
      assert after == init + [after[|after| - 1]];
    }
  }

  lemma NoShots(leaves: Leaving, frameIndex: u32, before: History, other: History, after: History)
    requires Follows(leaves, frameIndex, before, [], after)
    ensures after == before && Follows(leaves, frameIndex, other, [], other)
  {
  }

  lemma LastShot(leaves: Leaving, frameIndex: u32, before: History, shots: seq<Shot>, after: History)
    requires shots != [] && Follows(leaves, frameIndex, before, shots, after)
    ensures after != []
    ensures var n, init := |shots| - 1, after[..|after| - 1];
            && Follows(leaves, frameIndex, before, shots[..n], init)
            && leaves(IndexAfter(frameIndex, n), init, shots[n], after[|after| - 1])
  {
  }

  lemma ThenOneMore(leaves: Leaving, frameIndex: u32, before: History, shots: seq<Shot>, init: History, e: Entry)
    requires shots != [] && Follows(leaves, frameIndex, before, shots[..|shots| - 1], init)
    requires leaves(IndexAfter(frameIndex, |shots| - 1), init, shots[|shots| - 1], e)
    ensures Follows(leaves, frameIndex, before, shots, init + [e])
  {
    assert (init + [e])[..|init|] == init;
  }

  lemma BaselinesStay(before: History, after: History)
    requires before <= after && HasBaselines(ReferenceAfter(before))
    ensures HasBaselines(ReferenceAfter(after))
  {
    hide ReferenceAfter;
    ReferenceIsStable(before, after);
  }

  lemma MovedShotsEnd(shots: seq<Shot>, offset: Offset)
    requires shots != []
    ensures var moved, n := MovedShots(shots, offset), |shots| - 1;
            moved[..n] == MovedShots(shots[..n], offset) && moved[n] == shots[n].(answers := MovedAnswers(shots[n].answers, offset))
  {
  }

  lemma OneMoreMoved(h: History, h': History, e: Entry, e': Entry, offset: Offset)
    requires HistoryMoved(h, h', offset) && EntryMoved(e, e', offset)
    ensures HistoryMoved(h + [e], h' + [e'], offset)
  {
  }

  /** The entry that the moved shot leaves behind. */
  ghost function MovedEntry(setup: Setup, step: GuidedEnrollmentStep, index: u32, h: History, h': History, shot: Shot, e: Entry,
                            offset: Offset): (e': Entry)
    requires HistoryMoved(h, h', offset) && HasBaselines(ReferenceAfter(h)) && LeavingOf(setup, step)(index, h, shot, e)
    ensures LeavingOf(setup, step)(index, h', shot.(answers := MovedAnswers(shot.answers, offset)), e') && EntryMoved(e, e', offset)
  {
    FrameIsJudgedAlike(setup, step, index, h, h', shot, offset);
    EntryFor(setup.config, setup.compare, ReferenceAfter(h'), setup.model, shot.frame, setup.userId, step, index, shot.timestampMs,
             MovedAnswers(shot.answers, offset))
  }
}
