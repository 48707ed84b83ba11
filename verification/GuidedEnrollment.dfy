/**
 * The guided enrolment service.  Frames are observed one by one; each becomes a candidate
 * of its pose group or a rejected sample.  Finishing picks the templates.
 *
 * The service's ghost history lists what was observed, and its invariant says what every
 * field means in terms of that history.
 */
module GuidedEnrollment {
  import opened RustInts
  import opened Wrappers
  import opened Decimals
  import opened RealMath
  import opened Embeddings
  import opened FaceEngine
  import opened FacePose
  import opened Quality
  import opened EnrollmentSteps
  import opened StableSort
  import opened TemplateSelection

  datatype Config = Config(
    duplicateSimilarityThreshold: real,
    templateAcceptanceThreshold: real,
    frameMatchThreshold: real,
    requiredConsecutiveMatchCount: u32,
    qualityPolicy: FaceQualityPolicy)

  const MIN_FRONTAL_POSE_BASELINE_SAMPLES: nat := 3

  datatype Observation = Observation(
    step: GuidedEnrollmentStep,
    frameIndex: u32,
    acceptedForStep: bool,
    rejectReason: Option<FaceSampleRejectReason>,
    qualityScore: real,
    poseFitScore: real,
    poseEstimate: Option<FacePoseEstimate>,
    detectedFaces: seq<DetectedFace>)

  /** What the model and pose providers answer for one frame. */
  datatype ProviderAnswers = ProviderAnswers(
    detection: Result<seq<DetectedFace>, FaceEngineError>,
    extraction: Result<Embedding, FaceEngineError>,
    pose: Option<FacePoseEstimate>)

  /** The part of the service's state that a frame is judged by. */
  datatype Reference = Reference(primary: Option<Embedding>, yawBaseline: Option<real>, pitchBaseline: Option<real>)

  // ----- judging a frame -----

  function CalibratedPose(reference: Reference, raw: Option<FacePoseEstimate>): Option<FacePoseEstimate> {
    match raw
    case None => None
    case Some(pose) =>
      Some(pose.(yawDeg := pose.yawDeg - OrElse(reference.yawBaseline, 0.0),
                 pitchDeg := pose.pitchDeg - OrElse(reference.pitchBaseline, 0.0)))
  }

  /** Similarity to the primary embedding, once there is one. */
  function ConsistencyScore(compare: (Embedding, Embedding) -> real, primary: Option<Embedding>, embedding: Embedding): Option<real> {
    match primary
    case None => None
    case Some(p) => Some(Clamp(compare(p, embedding), 0.0, 1.0))
  }

  function VerdictOn(config: Config, step: GuidedEnrollmentStep, quality: QualityScores): Option<FaceSampleRejectReason> {
    if step != GuidedEnrollmentStep.FrontalPrimary && quality.embeddingConsistencyScore.Some?
       && quality.embeddingConsistencyScore.value < config.templateAcceptanceThreshold
    then Some(EmbeddingInconsistentWithPrimary)
    else RejectReasonForQuality(quality, config.qualityPolicy)
  }

  function NoSingleFace(step: GuidedEnrollmentStep, frameIndex: u32, faces: seq<DetectedFace>): Observation
    requires |faces| != 1
  {
    Observation(step, frameIndex, false, Some(WhyNoSingleFace(faces)), 0.0, 0.0, None, faces)
  }

  function WhyNoSingleFace(faces: seq<DetectedFace>): FaceSampleRejectReason {
    if faces == [] then FaceSampleRejectReason.NoFaceDetected else FaceSampleRejectReason.MultipleFacesDetected
  }

  function ObservationOf(step: GuidedEnrollmentStep, frameIndex: u32, faces: seq<DetectedFace>,
                         pose: Option<FacePoseEstimate>, quality: QualityScores,
                         reason: Option<FaceSampleRejectReason>): Observation
  {
    Observation(step, frameIndex, reason.None?, reason, quality.qualityScore, quality.poseFitScore, pose, faces)
  }

  /** The quality that capturing gives the one detected face. */
  function CaptureQuality(compare: (Embedding, Embedding) -> real, reference: Reference, frame: VideoFrame,
                          step: GuidedEnrollmentStep, face: DetectedFace, embedding: Embedding,
                          pose: Option<FacePoseEstimate>): QualityScores
    requires frame.Valid()
  {
    QualityOf(frame, face, step.PoseTarget(), CalibratedPose(reference, pose), ConsistencyScore(compare, reference.primary, embedding))
  }

  function CaptureOf(config: Config, compare: (Embedding, Embedding) -> real, reference: Reference, frame: VideoFrame,
                     step: GuidedEnrollmentStep, frameIndex: u32, answers: ProviderAnswers): Result<Observation, FaceEngineError>
    requires frame.Valid()
  {
    match answers.detection
    case Err(error) => Err(error)
    case Ok(faces) =>
      if |faces| != 1 then Ok(NoSingleFace(step, frameIndex, faces))
      else
        match answers.extraction
        case Err(error) => Err(error)
        case Ok(embedding) =>
          var quality := CaptureQuality(compare, reference, frame, step, faces[0], embedding, answers.pose);
          Ok(ObservationOf(step, frameIndex, faces, CalibratedPose(reference, answers.pose), quality,
                           VerdictOn(config, step, quality)))
  }

  /** A preview compares with the primary embedding only outside the frontal step. */
  function PreviewOf(config: Config, compare: (Embedding, Embedding) -> real, reference: Reference, frame: VideoFrame,
                     step: GuidedEnrollmentStep, frameIndex: u32, answers: ProviderAnswers): Result<Observation, FaceEngineError>
    requires frame.Valid()
  {
    match answers.detection
    case Err(error) => Err(error)
    case Ok(faces) =>
      if |faces| != 1 then Ok(NoSingleFace(step, frameIndex, faces))
      else
        var compares := step != GuidedEnrollmentStep.FrontalPrimary && reference.primary.Some?;
        if compares && answers.extraction.Err? then Err(answers.extraction.error)
        else
          var consistency := if compares then ConsistencyScore(compare, reference.primary, answers.extraction.value) else None;
          var pose := CalibratedPose(reference, answers.pose);
          var quality := QualityOf(frame, faces[0], step.PoseTarget(), pose, consistency);
          Ok(ObservationOf(step, frameIndex, faces, pose, quality, VerdictOn(config, step, quality)))
  }

  /**
   * A preview is never stricter than a capture of the same frame, and outside the frontal
   * step it says exactly the same.
   */
  lemma PreviewIsNoStricter(config: Config, compare: (Embedding, Embedding) -> real, reference: Reference, frame: VideoFrame,
                            step: GuidedEnrollmentStep, frameIndex: u32, answers: ProviderAnswers)
    requires frame.Valid()
    ensures var capture := CaptureOf(config, compare, reference, frame, step, frameIndex, answers);
            var preview := PreviewOf(config, compare, reference, frame, step, frameIndex, answers);
            capture.Ok? ==>
              && preview.Ok?
              && (capture.value.acceptedForStep ==> preview.value.acceptedForStep)
              && capture.value.qualityScore <= preview.value.qualityScore
              && (step != GuidedEnrollmentStep.FrontalPrimary ==> preview == capture)
  {
    if answers.detection.Ok? && |answers.detection.value| == 1 && answers.extraction.Ok? {
      var face, embedding := answers.detection.value[0], answers.extraction.value;
      var consistency := ConsistencyScore(compare, reference.primary, embedding);
      QualityGrowsWithConsistency(frame, face, step.PoseTarget(), CalibratedPose(reference, answers.pose), consistency, None);
      QualityGrowsWithConsistency(frame, face, step.PoseTarget(), CalibratedPose(reference, answers.pose), consistency, consistency);
    }
  }

  /** In the frontal step a capture adds just one demand to the preview's: the weighted quality itself. */
  lemma WhatFrontalCaptureAdds(config: Config, compare: (Embedding, Embedding) -> real, reference: Reference, frame: VideoFrame,
                               frameIndex: u32, answers: ProviderAnswers)
    requires frame.Valid()
    ensures var step := GuidedEnrollmentStep.FrontalPrimary;
            var capture := CaptureOf(config, compare, reference, frame, step, frameIndex, answers);
            var preview := PreviewOf(config, compare, reference, frame, step, frameIndex, answers);
            capture.Ok? ==>
              (capture.value.acceptedForStep <==>
               preview.value.acceptedForStep && capture.value.qualityScore >= config.qualityPolicy.minQualityScore)
  {
    PreviewIsNoStricter(config, compare, reference, frame, GuidedEnrollmentStep.FrontalPrimary, frameIndex, answers);
  }

  // ----- samples -----

  function SampleId(step: GuidedEnrollmentStep, timestampMs: i64, frameIndex: u32): string {
    step.Label() + "-" + SignedDecimal(timestampMs) + "-" + Decimal(frameIndex)
  }

  /** Two samples of one enrolment share an id only if they share step, time and frame index. */
  lemma SampleIdsAreDistinct(step: GuidedEnrollmentStep, timestampMs: i64, frameIndex: u32,
                             step': GuidedEnrollmentStep, timestampMs': i64, frameIndex': u32)
    requires SampleId(step, timestampMs, frameIndex) == SampleId(step', timestampMs', frameIndex')
    ensures step == step' && timestampMs == timestampMs' && frameIndex == frameIndex'
  {
    var name, name' := step.Label(), step'.Label();
    var time, time' := SignedDecimal(timestampMs), SignedDecimal(timestampMs');
    LastNumberIsTold(name + "-" + time, name' + "-" + time', frameIndex, frameIndex');
    var s, t := name + "-" + time, name' + "-" + time';
    LabelsHaveNoDash(step);
    LabelsHaveNoDash(step');
    assert s[|name|] == '-' && t[|name'|] == '-';
    assert s[..|name|] == name && t[..|name'|] == name' && s[|name| + 1..] == time && t[|name'| + 1..] == time';
    SignedDecimalIsInjective(timestampMs, timestampMs');
    LabelsDiffer(step, step');
  }

  lemma LabelsHaveNoDash(step: GuidedEnrollmentStep)
    ensures forall i :: 0 <= i < |step.Label()| ==> step.Label()[i] != '-'
  {
  }

  lemma LabelsDiffer(step: GuidedEnrollmentStep, other: GuidedEnrollmentStep)
    requires step.Label() == other.Label()
    ensures step == other
  {
    assert |step.Label()| == |other.Label()| && step.Label()[0] == other.Label()[0];
  }

  const NO_QUALITY: QualityScores := QualityScores(0.0, 0.0, 0.0, 0.0, 0.0, 0.0, None)

  /** The record of a frame without exactly one face. */
  function FacelessMetadata(userId: string, step: GuidedEnrollmentStep, frameIndex: u32, timestampMs: i64,
                            reason: FaceSampleRejectReason): SampleMetadata
  {
    SampleMetadata(SampleId(step, timestampMs, frameIndex), step.PoseGroup(), step.Label() + ":" + userId, frameIndex, timestampMs,
                   FaceBox(0.0, 0.0, 0.0, 0.0), [], 0.0, 0.0, 0.0, 0.0, NO_QUALITY, false, Some(reason))
  }

  function MetadataOf(step: GuidedEnrollmentStep, frameIndex: u32, timestampMs: i64, face: DetectedFace,
                      raw: Option<FacePoseEstimate>, quality: QualityScores,
                      reason: Option<FaceSampleRejectReason>): SampleMetadata
  {
    var pose := if raw.Some? then raw.value else FacePoseEstimate(0.0, 0.0, 0.0, None, None);
    SampleMetadata(SampleId(step, timestampMs, frameIndex), step.PoseGroup(), step.Label(), frameIndex, timestampMs,
                   face.bounds, face.landmarks, face.confidence, pose.yawDeg, pose.pitchDeg, pose.rollDeg, quality,
                   reason.None? && step.PoseGroup().SelectedForUnlockByDefault(), reason)
  }

  function TemplateOf(userId: string, model: FaceModelDescriptor, metadata: SampleMetadata, embedding: Embedding): FaceTemplate {
    FaceTemplate("face-template-" + metadata.sampleId, userId, model.modelFamily, model.modelVersion, metadata.poseGroup,
                 metadata.selectedForUnlock, Some(metadata.quality.qualityScore), embedding)
  }

  // ----- histories -----

  /** What one observed frame left behind. */
  datatype Entry =
    | Accepted(step: GuidedEnrollmentStep, candidate: CandidateSample, rawPose: Option<FacePoseEstimate>)
    | Rejected(metadata: SampleMetadata)

  type History = seq<Entry>

  function CandidatesOf(history: History, group: FacePoseGroup): seq<CandidateSample> {
    if history == [] then []
    else
      var last := history[|history| - 1];
      CandidatesOf(history[..|history| - 1], group)
      + if last.Accepted? && last.step.PoseGroup() == group then [last.candidate] else []
  }

  function RejectedOf(history: History): seq<SampleMetadata> {
    if history == [] then []
    else
      var last := history[|history| - 1];
      RejectedOf(history[..|history| - 1]) + if last.Rejected? then [last.metadata] else []
  }

  /** The raw poses of the accepted frontal samples that had one. */
  function FrontalPoses(history: History): seq<FacePoseEstimate> {
    if history == [] then []
    else
      var last := history[|history| - 1];
      FrontalPoses(history[..|history| - 1])
      + if last.Accepted? && last.step == GuidedEnrollmentStep.FrontalPrimary && last.rawPose.Some? then [last.rawPose.value] else []
  }

  /** The poses that the baseline is taken from: the first three. */
  function BaselinePoses(history: History): seq<FacePoseEstimate> {
    var poses := FrontalPoses(history);
    if |poses| <= MIN_FRONTAL_POSE_BASELINE_SAMPLES then poses else poses[..MIN_FRONTAL_POSE_BASELINE_SAMPLES]
  }

  function Yaws(poses: seq<FacePoseEstimate>): (yaws: seq<real>)
    ensures |yaws| == |poses| && forall i :: 0 <= i < |poses| ==> yaws[i] == poses[i].yawDeg
  {
    if poses == [] then [] else Yaws(poses[..|poses| - 1]) + [poses[|poses| - 1].yawDeg]
  }

  function Pitches(poses: seq<FacePoseEstimate>): (pitches: seq<real>)
    ensures |pitches| == |poses| && forall i :: 0 <= i < |poses| ==> pitches[i] == poses[i].pitchDeg
  {
    if poses == [] then [] else Pitches(poses[..|poses| - 1]) + [poses[|poses| - 1].pitchDeg]
  }

  /** The embedding of the first frontal candidate. */
  function PrimaryOf(history: History): Option<Embedding> {
    var frontal := CandidatesOf(history, FacePoseGroup.FrontalPrimary);
    if frontal == [] then None else Some(frontal[0].template.embedding)
  }

  /** The median of the samples, once there are enough. */
  function BaselineOf(samples: seq<real>): Option<real> {
    if |samples| >= MIN_FRONTAL_POSE_BASELINE_SAMPLES then Some(Median(samples)) else None
  }

  /** What frames are judged by after `history`. */
  function ReferenceAfter(history: History): Reference {
    Reference(PrimaryOf(history), BaselineOf(Yaws(BaselinePoses(history))), BaselineOf(Pitches(BaselinePoses(history))))
  }

  /** A candidate as capturing makes it: right group, no reject reason, all floors of the policy met. */
  predicate SoundCandidate(config: Config, step: GuidedEnrollmentStep, c: CandidateSample) {
    && c.metadata.poseGroup == c.template.poseGroup == step.PoseGroup()
    && c.metadata.rejectReason == None
    && c.metadata.selectedForUnlock == c.template.selectedForUnlock == step.PoseGroup().SelectedForUnlockByDefault()
    && c.template.qualityScore == Some(c.metadata.quality.qualityScore)
    && MeetsFloors(c.metadata.quality, config.qualityPolicy)
  }

  predicate SoundEntry(config: Config, e: Entry) {
    match e
    case Accepted(step, candidate, _) => SoundCandidate(config, step, candidate)
    case Rejected(metadata) => metadata.rejectReason.Some? && !metadata.selectedForUnlock
  }

  predicate SoundHistory(config: Config, history: History) {
    forall i :: 0 <= i < |history| ==> SoundEntry(config, history[i])
  }

  lemma HistoryStep(history: History, e: Entry)
    ensures (history + [e])[..|history|] == history
    ensures forall group :: CandidatesOf(history + [e], group) ==
                            CandidatesOf(history, group) + if e.Accepted? && e.step.PoseGroup() == group then [e.candidate] else []
    ensures RejectedOf(history + [e]) == RejectedOf(history) + if e.Rejected? then [e.metadata] else []
    ensures FrontalPoses(history + [e]) ==
            FrontalPoses(history)
            + if e.Accepted? && e.step == GuidedEnrollmentStep.FrontalPrimary && e.rawPose.Some? then [e.rawPose.value] else []
  {
    assert (history + [e])[..|history|] == history;
  }

  lemma RejectionKeepsReference(history: History, metadata: SampleMetadata)
    ensures ReferenceAfter(history + [Rejected(metadata)]) == ReferenceAfter(history)
    ensures BaselinePoses(history + [Rejected(metadata)]) == BaselinePoses(history)
  {
    HistoryStep(history, Rejected(metadata));
    assert BaselinePoses(history + [Rejected(metadata)]) == BaselinePoses(history);
    assert CandidatesOf(history + [Rejected(metadata)], FacePoseGroup.FrontalPrimary) ==
           CandidatesOf(history, FacePoseGroup.FrontalPrimary);
  }

  lemma AcceptanceSetsPrimary(history: History, step: GuidedEnrollmentStep, candidate: CandidateSample, rawPose: Option<FacePoseEstimate>)
    ensures PrimaryOf(history + [Accepted(step, candidate, rawPose)]) ==
            if step == GuidedEnrollmentStep.FrontalPrimary && PrimaryOf(history).None?
            then Some(candidate.template.embedding) else PrimaryOf(history)
  {
    var e := Accepted(step, candidate, rawPose);
    HistoryStep(history, e);
    var before, after := CandidatesOf(history, FacePoseGroup.FrontalPrimary), CandidatesOf(history + [e], FacePoseGroup.FrontalPrimary);
    assert step == GuidedEnrollmentStep.FrontalPrimary <==> step.PoseGroup() == FacePoseGroup.FrontalPrimary;
    assert after == before + if step == GuidedEnrollmentStep.FrontalPrimary then [candidate] else [];
  }

  /** The frontal pose that a sample adds to those the baseline is taken from, if it adds one. */
  predicate ExtendsBaseline(step: GuidedEnrollmentStep, rawPose: Option<FacePoseEstimate>, samplesSoFar: nat) {
    step == GuidedEnrollmentStep.FrontalPrimary && rawPose.Some? && samplesSoFar < MIN_FRONTAL_POSE_BASELINE_SAMPLES
  }

  /** A frontal pose joins the baseline's samples until there are enough. */
  lemma AcceptanceExtendsBaseline(history: History, step: GuidedEnrollmentStep, candidate: CandidateSample,
                                  rawPose: Option<FacePoseEstimate>)
    ensures var before, after := BaselinePoses(history), BaselinePoses(history + [Accepted(step, candidate, rawPose)]);
            if ExtendsBaseline(step, rawPose, |before|) then
              && Yaws(after) == Yaws(before) + [rawPose.value.yawDeg]
              && Pitches(after) == Pitches(before) + [rawPose.value.pitchDeg]
            else after == before
  {
    var e := Accepted(step, candidate, rawPose);
    HistoryStep(history, e);
    var poses, poses' := BaselinePoses(history), BaselinePoses(history + [e]);
    if ExtendsBaseline(step, rawPose, |poses|) {
      assert poses' == poses + [rawPose.value];
      assert Yaws(poses') == Yaws(poses) + [rawPose.value.yawDeg];
      assert Pitches(poses') == Pitches(poses) + [rawPose.value.pitchDeg];
    } else {
      assert poses' == poses;
    }
  }

  /** The stored candidates group by group; every group with candidates, and no other, is stored. */
  function StoreOf(history: History): Store {
    if history == [] then map[]
    else
      var before, last := StoreOf(history[..|history| - 1]), history[|history| - 1];
      if last.Rejected? then before
      else before[last.step.PoseGroup() := CandidatesIn(before, last.step.PoseGroup()) + [last.candidate]]
  }

  lemma {:induction false} StoreHoldsTheCandidates(history: History, group: FacePoseGroup)
    ensures CandidatesIn(StoreOf(history), group) == CandidatesOf(history, group)
    ensures group in StoreOf(history) <==> CandidatesOf(history, group) != []
  {
    if history != [] {
      StoreHoldsTheCandidates(history[..|history| - 1], group);
    }
  }

  lemma StoreStep(history: History, e: Entry)
    ensures StoreOf(history + [e]) ==
            if e.Rejected? then StoreOf(history)
            else StoreOf(history)[e.step.PoseGroup() := CandidatesIn(StoreOf(history), e.step.PoseGroup()) + [e.candidate]]
  {
    assert (history + [e])[..|history|] == history;
  }

  lemma SoundStep(config: Config, history: History, e: Entry)
    requires SoundHistory(config, history) && SoundEntry(config, e)
    ensures SoundHistory(config, history + [e])
  {
  }

  /** Of the candidates of a group each is sound. */
  lemma {:induction false} CandidatesAreSound(config: Config, history: History, group: FacePoseGroup)
    requires SoundHistory(config, history)
    ensures forall c :: c in CandidatesOf(history, group) ==>
                          exists step: GuidedEnrollmentStep :: step.PoseGroup() == group && SoundCandidate(config, step, c)
  {
    if history != [] {
      CandidatesAreSound(config, history[..|history| - 1], group);
      assert SoundEntry(config, history[|history| - 1]);
    }
  }

  /** Later frames only append candidates and frontal poses. */
  lemma {:induction false} HistoriesOnlyAppend(before: History, after: History)
    requires before <= after
    ensures CandidatesOf(before, FacePoseGroup.FrontalPrimary) <= CandidatesOf(after, FacePoseGroup.FrontalPrimary)
    ensures FrontalPoses(before) <= FrontalPoses(after)
  {
    if |before| < |after| {
      HistoriesOnlyAppend(before, after[..|after| - 1]);
    } else {
      assert before == after;
    }
  }

  /** The poses of the baseline are fixed once there are three. */
  lemma BaselinePosesAreStable(before: History, after: History)
    requires FrontalPoses(before) <= FrontalPoses(after) && |FrontalPoses(before)| >= MIN_FRONTAL_POSE_BASELINE_SAMPLES
    ensures BaselinePoses(after) == BaselinePoses(before) == FrontalPoses(before)[..MIN_FRONTAL_POSE_BASELINE_SAMPLES]
  {
    hide FrontalPoses;
  }

  /**
   * The reference only ever grows: the primary embedding is set by the first frontal
   * candidate and the baselines, together, by the third frontal pose; then they stay.
   */
  lemma ReferenceIsStable(before: History, after: History)
    requires before <= after
    ensures var r, r' := ReferenceAfter(before), ReferenceAfter(after);
            && (r.primary.Some? ==> r'.primary == r.primary)
            && (r.yawBaseline.Some? ==> r'.yawBaseline == r.yawBaseline && r'.pitchBaseline == r.pitchBaseline)
            && (r'.yawBaseline.Some? <==> r'.pitchBaseline.Some?)
            && (r'.yawBaseline.Some? <==> |FrontalPoses(after)| >= MIN_FRONTAL_POSE_BASELINE_SAMPLES)
    ensures CandidatesOf(before, FacePoseGroup.FrontalPrimary) <= CandidatesOf(after, FacePoseGroup.FrontalPrimary)
    ensures FrontalPoses(before) <= FrontalPoses(after)
  {
    hide CandidatesOf, FrontalPoses, Median, Yaws, Pitches;
    HistoriesOnlyAppend(before, after);
    if |FrontalPoses(before)| >= MIN_FRONTAL_POSE_BASELINE_SAMPLES {
      BaselinePosesAreStable(before, after);
    }
  }

  /** Once there is a baseline, it is the middle one of the first three frontal readings. */
  lemma BaselineIsTheMiddleReading(history: History)
    requires ReferenceAfter(history).yawBaseline.Some?
    ensures var poses := FrontalPoses(history);
            var yaw, pitch := ReferenceAfter(history).yawBaseline.value, ReferenceAfter(history).pitchBaseline.value;
            && |poses| >= 3
            && yaw in [poses[0].yawDeg, poses[1].yawDeg, poses[2].yawDeg]
            && pitch in [poses[0].pitchDeg, poses[1].pitchDeg, poses[2].pitchDeg]
            && |Filter(AtMost(yaw), Yaws(poses[..3]))| >= 2 && |Filter(AtLeast(yaw), Yaws(poses[..3]))| >= 2
            && |Filter(AtMost(pitch), Pitches(poses[..3]))| >= 2 && |Filter(AtLeast(pitch), Pitches(poses[..3]))| >= 2
  {
    var poses := FrontalPoses(history);
    assert BaselinePoses(history) == poses[..3];
    MedianIsInTheMiddle(Yaws(poses[..3]));
    MedianIsInTheMiddle(Pitches(poses[..3]));
    assert Yaws(poses[..3]) == [poses[0].yawDeg, poses[1].yawDeg, poses[2].yawDeg];
    assert Pitches(poses[..3]) == [poses[0].pitchDeg, poses[1].pitchDeg, poses[2].pitchDeg];
  }

  /** The entry a judged face leaves behind. */
  function JudgedEntry(userId: string, model: FaceModelDescriptor, step: GuidedEnrollmentStep, frameIndex: u32, timestampMs: i64,
                       face: DetectedFace, embedding: Embedding, rawPose: Option<FacePoseEstimate>, quality: QualityScores,
                       reason: Option<FaceSampleRejectReason>): Entry
  {
    var metadata := MetadataOf(step, frameIndex, timestampMs, face, rawPose, quality, reason);
    if reason.Some? then Rejected(metadata)
    else Accepted(step, CandidateSample(TemplateOf(userId, model, metadata, embedding), metadata), rawPose)
  }

  /** The entry an observed frame leaves behind. */
  function EntryFor(config: Config, compare: (Embedding, Embedding) -> real, reference: Reference, model: FaceModelDescriptor,
                    frame: VideoFrame, userId: string, step: GuidedEnrollmentStep, frameIndex: u32, timestampMs: i64,
                    answers: ProviderAnswers): Entry
    requires frame.Valid() && CaptureOf(config, compare, reference, frame, step, frameIndex, answers).Ok?
  {
    var faces := answers.detection.value;
    if |faces| != 1 then Rejected(FacelessMetadata(userId, step, frameIndex, timestampMs, WhyNoSingleFace(faces)))
    else
      var quality := CaptureQuality(compare, reference, frame, step, faces[0], answers.extraction.value, answers.pose);
      JudgedEntry(userId, model, step, frameIndex, timestampMs, faces[0], answers.extraction.value, answers.pose, quality,
                  VerdictOn(config, step, quality))
  }

  /** A face is refused as another person's exactly when it is to be compared and less similar than demanded. */
  lemma ConsistencyIsDemanded(config: Config, compare: (Embedding, Embedding) -> real, reference: Reference, frame: VideoFrame,
                              step: GuidedEnrollmentStep, frameIndex: u32, answers: ProviderAnswers)
    requires frame.Valid() && CaptureOf(config, compare, reference, frame, step, frameIndex, answers).Ok?
    requires |answers.detection.value| == 1 && 0.0 < config.templateAcceptanceThreshold <= 1.0
    ensures var capture := CaptureOf(config, compare, reference, frame, step, frameIndex, answers).value;
            capture.rejectReason == Some(EmbeddingInconsistentWithPrimary) <==>
            && step != GuidedEnrollmentStep.FrontalPrimary && reference.primary.Some?
            && compare(reference.primary.value, answers.extraction.value) < config.templateAcceptanceThreshold
  {
    hide FaceSizeScore, FaceRegionBlur, FaceRegionIllumination, AlignmentScore, PoseFitScore, WeightedAverage, Components, CalibratedPose;
  }

  function MetadataIn(e: Entry): SampleMetadata {
    match e
    case Accepted(_, candidate, _) => candidate.metadata
    case Rejected(metadata) => metadata
  }

  /**
   * The sample that a frame leaves behind tells of that very frame, with the verdict and the
   * scores that the observation reports, and the angles as the camera gave them.
   */
  lemma EntryTellsOfItsFrame(config: Config, compare: (Embedding, Embedding) -> real, reference: Reference, model: FaceModelDescriptor,
                             frame: VideoFrame, userId: string, step: GuidedEnrollmentStep, frameIndex: u32, timestampMs: i64,
                             answers: ProviderAnswers)
    requires frame.Valid() && CaptureOf(config, compare, reference, frame, step, frameIndex, answers).Ok?
    ensures var capture := CaptureOf(config, compare, reference, frame, step, frameIndex, answers).value;
            var entry := EntryFor(config, compare, reference, model, frame, userId, step, frameIndex, timestampMs, answers);
            var sample := MetadataIn(entry);
            && (entry.Accepted? <==> capture.acceptedForStep)
            && sample.frameIndex == frameIndex && sample.frameTimestampMs == timestampMs && sample.poseGroup == step.PoseGroup()
            && sample.rejectReason == capture.rejectReason
            && (answers.detection.value == [] <==> sample.rejectReason == Some(FaceSampleRejectReason.NoFaceDetected))
            && (|answers.detection.value| > 1 <==> sample.rejectReason == Some(FaceSampleRejectReason.MultipleFacesDetected))
            && sample.quality.qualityScore == capture.qualityScore && sample.quality.poseFitScore == capture.poseFitScore
            && (|capture.detectedFaces| == 1 ==> sample.faceBox == capture.detectedFaces[0].bounds)
            && (|capture.detectedFaces| == 1 && answers.pose.Some? ==>
                  (sample.poseYawDeg, sample.posePitchDeg, sample.poseRollDeg) ==
                  (answers.pose.value.yawDeg, answers.pose.value.pitchDeg, answers.pose.value.rollDeg))
            && (entry.Accepted? ==>
                  var template := entry.candidate.template;
                  && |capture.detectedFaces| == 1 && template.embedding == answers.extraction.value
                  && template.userId == userId && template.IsCompatibleWith(model)
                  && template.qualityScore == Some(capture.qualityScore)
                  && entry.step == step && entry.rawPose == answers.pose)
  {
    hide QualityOf, ConsistencyScore, CalibratedPose, SampleId;
  }

  // ----- finishing -----

  /** What a finished enrolment is about. */
  datatype Enrolment = Enrolment(userId: string, enrollmentId: string, detector: FaceModelDescriptor, createdAtUnixMs: i64)

  function ProfileOf(config: Config): ThresholdProfile {
    ThresholdProfile(config.templateAcceptanceThreshold, config.frameMatchThreshold, config.requiredConsecutiveMatchCount,
                     config.qualityPolicy.minQualityScore)
  }

  /** The samples that finishing publishes without a reject reason: those of the templates, then the blink samples. */
  function KeptSamples(rule: SimilarityRule, stored: Store): seq<SampleMetadata> {
    Samples(Chosen(rule, stored, UNLOCK_GROUPS)) + Leftovers(CandidatesIn(stored, FacePoseGroup.BlinkMotion))
  }

  /** The samples that finishing publishes with a reject reason. */
  function RefusedSamples(rule: SimilarityRule, stored: Store, rejected: seq<SampleMetadata>): seq<SampleMetadata> {
    rejected + Duplicates(Dropped(rule, stored, UNLOCK_GROUPS))
  }

  /** The template set that finishing after `history` yields. */
  function TemplateSetOf(config: Config, rule: SimilarityRule, model: FaceModelDescriptor, enrolment: Enrolment,
                         history: History): FaceTemplateSet
  {
    var stored := StoreOf(history);
    var kept, refused := KeptSamples(rule, stored), RefusedSamples(rule, stored, RejectedOf(history));
    FaceTemplateSet(enrolment.userId, enrolment.detector, model, enrolment.enrollmentId, enrolment.createdAtUnixMs,
                    ProfileOf(config), Templates(Chosen(rule, stored, UNLOCK_GROUPS)), kept + refused,
                    QualitySummaryOf(kept, |refused|))
  }

  lemma UnlockGroupsAreDistinct()
    ensures Distinct(UNLOCK_GROUPS) && FacePoseGroup.BlinkMotion !in GroupSet(UNLOCK_GROUPS)
    ensures forall group :: group in GroupSet(UNLOCK_GROUPS) <==> group in UNLOCK_GROUPS
  {
    forall group: FacePoseGroup ensures group in GroupSet(UNLOCK_GROUPS) <==> group in UNLOCK_GROUPS {
      GroupSetHolds(UNLOCK_GROUPS, group);
    }
  }

  /** Steps lead to unlock groups and to the blink group only, and every candidate is filed under its own group. */
  lemma {:induction false} HistoriesAreWellStored(config: Config, history: History)
    requires SoundHistory(config, history)
    ensures WellStored(StoreOf(history))
  {
    if history != [] {
      var init, last := history[..|history| - 1], history[|history| - 1];
      HistoriesAreWellStored(config, init);
      assert SoundEntry(config, last);
      if last.Accepted? {
        assert last.step.PoseGroup() in UNLOCK_GROUPS + [FacePoseGroup.BlinkMotion];
      }
    }
  }

  /** After the unlock groups only the blink group is left. */
  lemma WhatTheGroupsLeave(stored: Store)
    requires WellStored(stored)
    ensures var rest := stored - GroupSet(UNLOCK_GROUPS);
            && (forall group :: group in rest ==> group == FacePoseGroup.BlinkMotion)
            && CandidatesIn(rest, FacePoseGroup.BlinkMotion) == CandidatesIn(stored, FacePoseGroup.BlinkMotion)
  {
    UnlockGroupsAreDistinct();
  }

  // ----- the service -----

  /** The fields of the service, as one value. */
  datatype State = State(
    candidatesByGroup: Store,
    rejectedMetadata: seq<SampleMetadata>,
    primaryEmbedding: Option<Embedding>,
    frontalYawBaselineDeg: Option<real>,
    frontalPitchBaselineDeg: Option<real>,
    frontalYawSamples: seq<real>,
    frontalPitchSamples: seq<real>)

  /** What every field means in terms of the history. */
  ghost predicate Records(config: Config, state: State, history: History) {
    && SoundHistory(config, history)
    && state.candidatesByGroup == StoreOf(history)
    && state.rejectedMetadata == RejectedOf(history)
    && state.primaryEmbedding == PrimaryOf(history)
    && state.frontalYawBaselineDeg == BaselineOf(state.frontalYawSamples)
    && state.frontalPitchBaselineDeg == BaselineOf(state.frontalPitchSamples)
    && state.frontalYawSamples == Yaws(BaselinePoses(history))
    && state.frontalPitchSamples == Pitches(BaselinePoses(history))
  }

  /** The fields once a candidate has been added. */
  function WithCandidate(state: State, step: GuidedEnrollmentStep, candidate: CandidateSample, rawPose: Option<FacePoseEstimate>): State {
    var isSample := ExtendsBaseline(step, rawPose, |state.frontalYawSamples|);
    var yaws := if isSample then state.frontalYawSamples + [rawPose.value.yawDeg] else state.frontalYawSamples;
    var pitches := if isSample then state.frontalPitchSamples + [rawPose.value.pitchDeg] else state.frontalPitchSamples;
    State(WithFiled(state.candidatesByGroup, step.PoseGroup(), candidate), state.rejectedMetadata,
          if step == GuidedEnrollmentStep.FrontalPrimary && state.primaryEmbedding.None?
          then Some(candidate.template.embedding) else state.primaryEmbedding,
          BaselineOf(yaws), BaselineOf(pitches), yaws, pitches)
  }

  function WithFiled(stored: Store, group: FacePoseGroup, candidate: CandidateSample): Store {
    stored[group := CandidatesIn(stored, group) + [candidate]]
  }

  lemma CandidateIsRecorded(config: Config, state: State, history: History, step: GuidedEnrollmentStep,
                            candidate: CandidateSample, rawPose: Option<FacePoseEstimate>)
    requires Records(config, state, history) && SoundCandidate(config, step, candidate)
    ensures Records(config, WithCandidate(state, step, candidate, rawPose), history + [Accepted(step, candidate, rawPose)])
  {
    var e := Accepted(step, candidate, rawPose);
    AcceptanceSetsPrimary(history, step, candidate, rawPose);
    AcceptanceExtendsBaseline(history, step, candidate, rawPose);
    StoreStep(history, e);
    SoundStep(config, history, e);
    HistoryStep(history, e);
  }

  lemma RejectionIsRecorded(config: Config, state: State, history: History, metadata: SampleMetadata)
    requires Records(config, state, history) && SoundEntry(config, Rejected(metadata))
    ensures Records(config, state.(rejectedMetadata := state.rejectedMetadata + [metadata]), history + [Rejected(metadata)])
  {
    HistoryStep(history, Rejected(metadata));
    RejectionKeepsReference(history, metadata);
    StoreStep(history, Rejected(metadata));
  }

  class GuidedFaceEnrollmentService {
    const config: Config
    const recognitionModel: FaceModelDescriptor
    const compare: (Embedding, Embedding) -> real
    var candidatesByGroup: Store
    var rejectedMetadata: seq<SampleMetadata>
    var primaryEmbedding: Option<Embedding>
    var frontalYawBaselineDeg: Option<real>
    var frontalPitchBaselineDeg: Option<real>
    var frontalYawSamples: seq<real>
    var frontalPitchSamples: seq<real>
    ghost var history: History

    function Fields(): State
      reads this
    {
      State(candidatesByGroup, rejectedMetadata, primaryEmbedding, frontalYawBaselineDeg, frontalPitchBaselineDeg,
            frontalYawSamples, frontalPitchSamples)
    }

    /** The fields say what the history says. */
    ghost predicate Valid()
      reads this
    {
      Records(config, Fields(), history)
    }

    constructor (config: Config, model: FaceModelDescriptor, compare: (Embedding, Embedding) -> real)
      ensures Valid() && history == [] && this.config == config && recognitionModel == model && this.compare == compare
    {
      this.config, recognitionModel, this.compare := config, model, compare;
      candidatesByGroup := map[];
      rejectedMetadata := [];
      primaryEmbedding := None;
      frontalYawBaselineDeg, frontalPitchBaselineDeg := None, None;
      frontalYawSamples, frontalPitchSamples := [], [];
      history := [];
    }

    function CurrentReference(): Reference
      reads this
    {
      Reference(primaryEmbedding, frontalYawBaselineDeg, frontalPitchBaselineDeg)
    }

    lemma HistoryIsSound()
      requires Valid()
      ensures SoundHistory(config, history)
    {
    }

    lemma ReferenceIsOfHistory()
      requires Valid()
      ensures CurrentReference() == ReferenceAfter(history)
    {
    }

    /**
     * Observes one frame.  An error leaves everything as it was; any answer adds one entry
     * to the history: the candidate, or the rejected sample.
     */
    method ObserveFrame(frame: VideoFrame, userId: string, step: GuidedEnrollmentStep, frameIndex: u32,
                        timestampMs: i64, answers: ProviderAnswers)
      returns (r: Result<Observation, FaceEngineError>)
      requires Valid() && frame.Valid()
      modifies this
      ensures Valid()
      ensures r == CaptureOf(config, compare, old(CurrentReference()), frame, step, frameIndex, answers)
      ensures r.Err? ==> history == old(history)
      ensures r.Ok? ==>
                history == old(history)
                  + [EntryFor(config, compare, old(CurrentReference()), recognitionModel, frame, userId, step, frameIndex,
                              timestampMs, answers)]
    {
      var faces :- answers.detection;
      if |faces| != 1 {
        AddRejected(FacelessMetadata(userId, step, frameIndex, timestampMs, WhyNoSingleFace(faces)));
        return Ok(NoSingleFace(step, frameIndex, faces));
      }
      var face := faces[0];
      var embedding :- answers.extraction;
      var pose := CalibratedPose(CurrentReference(), answers.pose);
      var consistency := ConsistencyScore(compare, primaryEmbedding, embedding);
      var quality, rejectReason := Judge(frame, face, step, pose, consistency);
      r := Ok(ObservationOf(step, frameIndex, faces, pose, quality, rejectReason));
      RecordJudged(userId, step, frameIndex, timestampMs, face, embedding, answers.pose, quality, rejectReason);
    }

    /** Scores a sample and decides whether it is rejected. */
    method Judge(frame: VideoFrame, face: DetectedFace, step: GuidedEnrollmentStep,
                 pose: Option<FacePoseEstimate>, consistency: Option<real>)
      returns (quality: QualityScores, rejectReason: Option<FaceSampleRejectReason>)
      requires frame.Valid()
      ensures quality == QualityOf(frame, face, step.PoseTarget(), pose, consistency)
      ensures rejectReason == VerdictOn(config, step, quality)
    {
      quality := ScoreFaceSample(frame, face, step.PoseTarget(), pose, consistency);
      rejectReason := RejectReasonForQuality(quality, config.qualityPolicy);
      if step != GuidedEnrollmentStep.FrontalPrimary && consistency.Some?
         && consistency.value < config.templateAcceptanceThreshold {
        rejectReason := Some(EmbeddingInconsistentWithPrimary);
      }
    }

    /** Keeps a judged sample as a candidate or as a rejected sample. */
    method RecordJudged(userId: string, step: GuidedEnrollmentStep, frameIndex: u32, timestampMs: i64, face: DetectedFace,
                        embedding: Embedding, rawPose: Option<FacePoseEstimate>, quality: QualityScores,
                        rejectReason: Option<FaceSampleRejectReason>)
      requires Valid() && rejectReason == VerdictOn(config, step, quality)
      modifies this
      ensures Valid()
      ensures history == old(history) + [JudgedEntry(userId, recognitionModel, step, frameIndex, timestampMs, face, embedding,
                                                     rawPose, quality, rejectReason)]
    {
      var metadata := MetadataOf(step, frameIndex, timestampMs, face, rawPose, quality, rejectReason);
      if rejectReason.Some? {
        AddRejected(metadata);
      } else {
        var template := TemplateOf(userId, recognitionModel, metadata, embedding);
        AddCandidate(step, CandidateSample(template, metadata), rawPose);
      }
    }

    method AddRejected(metadata: SampleMetadata)
      requires Valid() && SoundEntry(config, Rejected(metadata))
      modifies this
      ensures Valid() && history == old(history) + [Rejected(metadata)]
    {
      RejectionIsRecorded(config, Fields(), history, metadata);
      rejectedMetadata := rejectedMetadata + [metadata];
      history := history + [Rejected(metadata)];
    }

    method AddCandidate(step: GuidedEnrollmentStep, candidate: CandidateSample, rawPose: Option<FacePoseEstimate>)
      requires Valid() && SoundCandidate(config, step, candidate)
      modifies this
      ensures Valid() && history == old(history) + [Accepted(step, candidate, rawPose)]
    {
      CandidateIsRecorded(config, Fields(), history, step, candidate, rawPose);
      KeepCandidate(step, candidate, rawPose);
      history := history + [Accepted(step, candidate, rawPose)];
    }

    /** Files a candidate, after taking note of its frontal pose and of the first frontal embedding. */
    method KeepCandidate(step: GuidedEnrollmentStep, candidate: CandidateSample, rawPose: Option<FacePoseEstimate>)
      requires |frontalPitchSamples| == |frontalYawSamples|
      requires frontalYawBaselineDeg == BaselineOf(frontalYawSamples) && frontalPitchBaselineDeg == BaselineOf(frontalPitchSamples)
      modifies this
      ensures Fields() == WithCandidate(old(Fields()), step, candidate, rawPose) && history == old(history)
    {
      RecordFrontalPoseBaseline(step, rawPose);
      if step == GuidedEnrollmentStep.FrontalPrimary && primaryEmbedding.None? {
        primaryEmbedding := Some(candidate.template.embedding);
      }
      var group := step.PoseGroup();
      var filed := if group in candidatesByGroup then candidatesByGroup[group] else [];
      candidatesByGroup := candidatesByGroup[group := filed + [candidate]];
    }

    /** Takes note of a frontal pose until there are enough for a baseline, which is then fixed. */
    method RecordFrontalPoseBaseline(step: GuidedEnrollmentStep, rawPose: Option<FacePoseEstimate>)
      requires |frontalPitchSamples| == |frontalYawSamples|
      requires frontalYawBaselineDeg == BaselineOf(frontalYawSamples) && frontalPitchBaselineDeg == BaselineOf(frontalPitchSamples)
      modifies this`frontalYawSamples, this`frontalPitchSamples, this`frontalYawBaselineDeg, this`frontalPitchBaselineDeg
      ensures frontalYawBaselineDeg == BaselineOf(frontalYawSamples) && frontalPitchBaselineDeg == BaselineOf(frontalPitchSamples)
      ensures if ExtendsBaseline(step, rawPose, |old(frontalYawSamples)|)
              then frontalYawSamples == old(frontalYawSamples) + [rawPose.value.yawDeg]
                   && frontalPitchSamples == old(frontalPitchSamples) + [rawPose.value.pitchDeg]
              else frontalYawSamples == old(frontalYawSamples) && frontalPitchSamples == old(frontalPitchSamples)
    {
      if step != GuidedEnrollmentStep.FrontalPrimary || frontalYawBaselineDeg.Some? {
        return;
      }
      if rawPose.None? {
        return;
      }
      frontalYawSamples := frontalYawSamples + [rawPose.value.yawDeg];
      frontalPitchSamples := frontalPitchSamples + [rawPose.value.pitchDeg];
      if |frontalYawSamples| >= MIN_FRONTAL_POSE_BASELINE_SAMPLES {
        frontalYawBaselineDeg := Some(Median(frontalYawSamples));
        frontalPitchBaselineDeg := Some(Median(frontalPitchSamples));
      }
    }

    /** Judges one frame without remembering it: nothing of the service changes. */
    method PreviewFrameForStep(frame: VideoFrame, step: GuidedEnrollmentStep, frameIndex: u32, answers: ProviderAnswers)
      returns (r: Result<Observation, FaceEngineError>)
      requires frame.Valid()
      ensures r == PreviewOf(config, compare, CurrentReference(), frame, step, frameIndex, answers)
    {
      var faces :- answers.detection;
      if |faces| != 1 {
        return Ok(NoSingleFace(step, frameIndex, faces));
      }
      var pose := CalibratedPose(CurrentReference(), answers.pose);
      var consistency := None;
      if step != GuidedEnrollmentStep.FrontalPrimary && primaryEmbedding.Some? {
        var embedding :- answers.extraction;
        consistency := ConsistencyScore(compare, primaryEmbedding, embedding);
      }
      var quality, rejectReason := Judge(frame, faces[0], step, pose, consistency);
      return Ok(ObservationOf(step, frameIndex, faces, pose, quality, rejectReason));
    }

    /** Ends the enrolment: picks the templates and publishes every sample. */
    method Finish(sqrt: SquareRoot, enrolment: Enrolment) returns (templateSet: FaceTemplateSet)
      requires Valid()
      ensures templateSet ==
              TemplateSetOf(config, SimilarityRule(sqrt, config.duplicateSimilarityThreshold), recognitionModel, enrolment, history)
    {
      var rule := SimilarityRule(sqrt, config.duplicateSimilarityThreshold);
      UnlockGroupsAreDistinct();
      HistoriesAreWellStored(config, history);
      WhatTheGroupsLeave(candidatesByGroup);
      var templates, selected, rejected, rest := SelectFromGroups(rule, candidatesByGroup, UNLOCK_GROUPS, rejectedMetadata);
      selected := KeepLeftovers(rest, selected);
      var summary := QualitySummaryOf(selected, |rejected|);
      return FaceTemplateSet(enrolment.userId, enrolment.detector, recognitionModel, enrolment.enrollmentId,
                             enrolment.createdAtUnixMs, ProfileOf(config), templates, selected + rejected, summary);
    }
  }
}
