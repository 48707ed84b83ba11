/**
 * The guided enrolment run: step by step it waits until the pose is steady, captures frames
 * until enough are accepted, and finishes the enrolment.
 */
module GuidedDriver {
  import opened RustInts
  import opened Wrappers
  import opened RealMath
  import opened Embeddings
  import opened FaceEngine
  import opened FacePose
  import opened Quality
  import opened EnrollmentSteps
  import opened TemplateSelection
  import opened GuidedEnrollment
  import opened EnrollmentOutcome
  import opened EnrollmentReport

  datatype VideoError =
    | ProviderUnavailable
    | CameraNotFound
    | CameraAlreadyOpen
    | CameraNotOpen
    | OpenFailed
    | ReadFailed
    | EmptyFrame
    | UnsupportedFormat

  datatype DiagnosticError =
    | Video(video: VideoError)
    | Face(face: FaceEngineError)
    | InvalidArgument
    | GuidedEnrollmentStepIncomplete(step: string, acceptedFrameCount: u32, requiredFrameCount: u32, attemptedFrameCount: u32)

  /** A frame that passes validation, as the camera's frames do. */
  type ValidFrame = frame: VideoFrame | frame.Valid() witness VideoFrame(1, 1, Gray8, [0])

  /** One frame together with everything the outside world answers about it. */
  datatype Shot = Shot(frame: ValidFrame, answers: ProviderAnswers, timestampMs: i64)

  datatype Options = Options(
    acceptedFramesPerStep: u32,
    maxFramesPerStep: u32,
    maxWaitFramesPerStep: u32,
    poseReadyConsecutive: u32,
    poseReadyMinFitScore: real,
    frameMatchThreshold: real,
    allowPartialEnrollment: bool)

  /** The enrolment's configuration: the defaults, with the pose floor and the threshold of the options. */
  function ConfigFor(options: Options): Config {
    Config(0.98, 0.45, options.frameMatchThreshold, 3, DEFAULT_QUALITY_POLICY.(minPoseFitScore := options.poseReadyMinFitScore))
  }

  datatype Avatar = Avatar(frame: VideoFrame, bounds: FaceBox, score: real)

  /** What frames are judged with besides the reference. */
  datatype Setup = Setup(config: Config, compare: (Embedding, Embedding) -> real, model: FaceModelDescriptor, userId: string)

  predicate IsOptional(step: GuidedEnrollmentStep) {
    step == GuidedEnrollmentStep.PitchDownMild || step == GuidedEnrollmentStep.PitchUpMild
  }

  // ----- the gates -----

  predicate PassesPoseReadyGate(observation: Observation, minFit: real) {
    && observation.rejectReason in {None, Some(BlurTooHigh), Some(UnderExposed)}
    && observation.poseFitScore >= minFit
  }

  predicate PassesSampleGate(observation: Observation, minFit: real) {
    observation.acceptedForStep && observation.rejectReason.None? && observation.poseFitScore >= minFit
  }

  /** The frame index after `n` more frames; it stops at the largest one. */
  function IndexAfter(frameIndex: u32, n: nat): u32 {
    Min(frameIndex + n, U32_MAX)
  }

  // ----- waiting for the pose -----

  predicate IsReady(setup: Setup, reference: Reference, step: GuidedEnrollmentStep, minFit: real, frameIndex: u32, shot: Shot) {
    var preview := PreviewOf(setup.config, setup.compare, reference, shot.frame, step, frameIndex, shot.answers);
    preview.Ok? && PassesPoseReadyGate(preview.value, minFit)
  }

  /** How many of the last frames in a row show the pose. */
  function SteadyFrames(setup: Setup, reference: Reference, step: GuidedEnrollmentStep, minFit: real, frameIndex: u32,
                        shots: seq<Shot>): nat
  {
    if shots == [] then 0
    else
      var n := |shots| - 1;
      if IsReady(setup, reference, step, minFit, IndexAfter(frameIndex, n), shots[n])
      then SteadyFrames(setup, reference, step, minFit, frameIndex, shots[..n]) + 1 else 0
  }

  /** Before the last of the shots the pose had never been held for `limit` frames in a row. */
  ghost predicate NotEarlier(setup: Setup, reference: Reference, step: GuidedEnrollmentStep, minFit: real, frameIndex: u32,
                             shots: seq<Shot>, limit: nat)
  {
    forall n :: 0 <= n < |shots| ==> SteadyFrames(setup, reference, step, minFit, frameIndex, shots[..n]) < limit
  }

  lemma OneMorePreview(setup: Setup, reference: Reference, step: GuidedEnrollmentStep, minFit: real, frameIndex: u32,
                       shots: seq<Shot>, shot: Shot, limit: nat)
    requires NotEarlier(setup, reference, step, minFit, frameIndex, shots, limit)
    requires SteadyFrames(setup, reference, step, minFit, frameIndex, shots) < limit
    ensures NotEarlier(setup, reference, step, minFit, frameIndex, shots + [shot], limit)
    ensures SteadyFrames(setup, reference, step, minFit, frameIndex, shots + [shot]) ==
            if IsReady(setup, reference, step, minFit, IndexAfter(frameIndex, |shots|), shot)
            then SteadyFrames(setup, reference, step, minFit, frameIndex, shots) + 1 else 0
  {
    assert (shots + [shot])[..|shots|] == shots;
    assert forall n :: 0 <= n < |shots| ==> (shots + [shot])[..n] == shots[..n];
  }

  /** The pose counts as held for `k` frames exactly when each of the last `k` frames shows it. */
  lemma {:induction false} HeldPosesAreSteady(setup: Setup, reference: Reference, step: GuidedEnrollmentStep, minFit: real,
                                              frameIndex: u32, shots: seq<Shot>, k: nat)
    ensures SteadyFrames(setup, reference, step, minFit, frameIndex, shots) >= k <==>
            && k <= |shots|
            && forall i :: |shots| - k <= i < |shots| ==>
                             IsReady(setup, reference, step, minFit, IndexAfter(frameIndex, i), shots[i])
  {
    hide IsReady, IndexAfter;
    if shots != [] && k > 0 {
      HeldPosesAreSteady(setup, reference, step, minFit, frameIndex, shots[..|shots| - 1], k - 1);
    }
  }

  /** The scores a preview judges the one face by, unless it needs an embedding that is missing. */
  function PreviewScores(setup: Setup, reference: Reference, step: GuidedEnrollmentStep, shot: Shot): Option<QualityScores> {
    var answers := shot.answers;
    var compares := step != GuidedEnrollmentStep.FrontalPrimary && reference.primary.Some?;
    if answers.detection.Err? || |answers.detection.value| != 1 || (compares && answers.extraction.Err?) then None
    else
      var consistency := if compares then Some(Clamp(setup.compare(reference.primary.value, answers.extraction.value), 0.0, 1.0)) else None;
      Some(QualityOf(shot.frame, answers.detection.value[0], step.PoseTarget(), CalibratedPose(reference, answers.pose), consistency))
  }

  /**
   * A frame shows the pose exactly when one face is in it, large enough, in the pose asked for
   * and like the first one; blur or bad light do no harm, whatever the other scores are.
   */
  lemma WhichFramesShowThePose(setup: Setup, reference: Reference, step: GuidedEnrollmentStep, minFit: real, frameIndex: u32, shot: Shot)
    ensures var scores, policy := PreviewScores(setup, reference, step, shot), setup.config.qualityPolicy;
            IsReady(setup, reference, step, minFit, frameIndex, shot) <==>
            && scores.Some? && scores.value.poseFitScore >= minFit
            && scores.value.faceSizeScore >= policy.minFaceSizeScore
            && (scores.value.embeddingConsistencyScore.Some? ==>
                  scores.value.embeddingConsistencyScore.value >= setup.config.templateAcceptanceThreshold)
            && (scores.value.blurScore < policy.minBlurScore || scores.value.illuminationScore < policy.minIlluminationScore
                || (&& scores.value.poseFitScore >= policy.minPoseFitScore && scores.value.alignmentScore > 0.0
                    && scores.value.qualityScore >= policy.minQualityScore))
  {
    hide FaceSizeScore, FaceRegionBlur, FaceRegionIllumination, AlignmentScore, PoseFitScore, WeightedAverage, Components, CalibratedPose;
  }

  // ----- capturing -----

  /** Observing one more shot after `history` adds exactly `entry`. */
  ghost predicate Leaves(setup: Setup, step: GuidedEnrollmentStep, frameIndex: u32, history: History, shot: Shot, entry: Entry) {
    && CaptureOf(setup.config, setup.compare, ReferenceAfter(history), shot.frame, step, frameIndex, shot.answers).Ok?
    && entry == EntryFor(setup.config, setup.compare, ReferenceAfter(history), setup.model, shot.frame, setup.userId, step,
                         frameIndex, shot.timestampMs, shot.answers)
  }

  /** When an entry is what the shot taken with the frame index leaves behind after a history. */
  type Leaving = (u32, History, Shot, Entry) -> bool

  ghost function LeavingOf(setup: Setup, step: GuidedEnrollmentStep): Leaving {
    (frameIndex: u32, history: History, shot: Shot, entry: Entry) => Leaves(setup, step, frameIndex, history, shot, entry)
  }

  /** Observing the shots one after the other turns `before` into `after`. */
  ghost predicate Follows(leaves: Leaving, frameIndex: u32, before: History, shots: seq<Shot>, after: History) {
    if shots == [] then after == before
    else
      var n := |shots| - 1;
      && after != []
      && Follows(leaves, frameIndex, before, shots[..n], after[..|after| - 1])
      && leaves(IndexAfter(frameIndex, n), after[..|after| - 1], shots[n], after[|after| - 1])
  }

  /** The best frontal frame among the entries, which came from the shots: the first of highest quality. */
  function AvatarOf(entries: History, shots: seq<Shot>): Option<Avatar>
    requires |shots| == |entries|
  {
    if entries == [] then None
    else
      var n := |entries| - 1;
      BetterAvatar(AvatarOf(entries[..n], shots[..n]), entries[n], shots[n].frame)
  }

  predicate IsFrontal(entry: Entry) {
    entry.Accepted? && entry.step == GuidedEnrollmentStep.FrontalPrimary
  }

  function BetterAvatar(avatar: Option<Avatar>, entry: Entry, frame: VideoFrame): Option<Avatar> {
    if IsFrontal(entry) && (avatar.None? || entry.candidate.metadata.quality.qualityScore > avatar.value.score)
    then Some(Avatar(frame, entry.candidate.metadata.faceBox, entry.candidate.metadata.quality.qualityScore))
    else avatar
  }

  /** The avatar shows the frontal candidate of the highest quality, the earliest one among equals. */
  ghost predicate ShowsBest(entries: History, shots: seq<Shot>, avatar: Avatar, i: nat)
    requires |shots| == |entries| && i < |entries|
  {
    && IsFrontal(entries[i])
    && avatar == Avatar(shots[i].frame, entries[i].candidate.metadata.faceBox, entries[i].candidate.metadata.quality.qualityScore)
    && forall j :: 0 <= j < |entries| && IsFrontal(entries[j]) ==>
                     var quality := entries[j].candidate.metadata.quality.qualityScore;
                     quality <= avatar.score && (j < i ==> quality < avatar.score)
  }

  lemma {:induction false} AvatarIsTheBest(entries: History, shots: seq<Shot>)
    requires |shots| == |entries|
    ensures AvatarOf(entries, shots).None? <==> forall i :: 0 <= i < |entries| ==> !IsFrontal(entries[i])
    ensures AvatarOf(entries, shots).Some? ==>
              exists i :: 0 <= i < |entries| && ShowsBest(entries, shots, AvatarOf(entries, shots).value, i)
  {
    if entries != [] {
      var n := |entries| - 1;
      var init, shots' := entries[..n], shots[..n];
      AvatarIsTheBest(init, shots');
      assert forall i :: 0 <= i < n ==> init[i] == entries[i] && shots'[i] == shots[i];
      if AvatarOf(entries, shots).Some? {
        if AvatarOf(entries, shots) == AvatarOf(init, shots') {
          var i :| 0 <= i < n && ShowsBest(init, shots', AvatarOf(init, shots').value, i);
          assert ShowsBest(entries, shots, AvatarOf(entries, shots).value, i);
        } else {
          assert ShowsBest(entries, shots, AvatarOf(entries, shots).value, n);
        }
      }
    }
  }

  // ----- camera -----

  /** A camera as its client sees it: each read yields the next item of a feed. */
  class Camera {
    const feed: nat -> Result<Shot, VideoError>
    var position: nat
    var isOpen: bool
    /** The frames read so far. */
    ghost var taken: seq<Shot>

    method ReadFrame() returns (r: Result<Shot, DiagnosticError>)
      requires isOpen
      modifies this`position, this`taken
      ensures position == old(position) + 1
      ensures match feed(old(position))
              case Ok(shot) => r == Ok(shot) && taken == old(taken) + [shot]
              case Err(error) => r == Err(Video(error)) && taken == old(taken)
    {
      var read := feed(position);
      position := position + 1;
      match read
      case Err(error) => return Err(Video(error));
      case Ok(shot) =>
        taken := taken + [shot];
        return Ok(shot);
    }

    method Close()
      modifies this`isOpen
      ensures !isOpen
    {
      isOpen := false;
    }
  }

  datatype Waited = Waited(readyCount: u32, attemptedCount: u32, frameIndex: u32)

  /** Previews one frame and tells whether it shows the pose. */
  method PreviewShot(service: GuidedFaceEnrollmentService, ghost setup: Setup, shot: Shot, step: GuidedEnrollmentStep,
                     frameIndex: u32, ghost minFit: real, options: Options)
    returns (r: Result<bool, DiagnosticError>)
    requires minFit == options.poseReadyMinFitScore
    requires setup.config == service.config && setup.compare == service.compare
    ensures r.Err? ==> r.error.Face?
    ensures r.Ok? ==> r.value == IsReady(setup, service.CurrentReference(), step, minFit, frameIndex, shot)
  {
    var preview := service.PreviewFrameForStep(shot.frame, step, frameIndex, shot.answers);
    match preview
    case Err(error) => return Err(Face(error));
    case Ok(observation) => return Ok(PassesPoseReadyGate(observation, options.poseReadyMinFitScore));
  }

  /**
   * Reads and previews frames until the pose has been held for enough frames in a row, or the
   * patience is exhausted.  The service does not change.
   */
  method WaitForPose(service: GuidedFaceEnrollmentService, camera: Camera, ghost setup: Setup, step: GuidedEnrollmentStep,
                     options: Options, frameIndex: u32)
    returns (r: Result<Waited, DiagnosticError>, ghost shots: seq<Shot>)
    requires camera.isOpen
    requires setup.config == service.config && setup.compare == service.compare
    modifies camera`position, camera`taken
    ensures r.Err? ==> r.error.Video? || r.error.Face?
    ensures r.Ok? ==>
              && camera.taken == old(camera.taken) + shots
              && r.value.attemptedCount == |shots| <= options.maxWaitFramesPerStep
              && r.value.frameIndex == IndexAfter(frameIndex, |shots|)
    ensures r.Ok? ==>
              var reference, minFit := service.CurrentReference(), options.poseReadyMinFitScore;
              && r.value.readyCount == SteadyFrames(setup, reference, step, minFit, frameIndex, shots) <= options.poseReadyConsecutive
              && (r.value.readyCount == options.poseReadyConsecutive || |shots| == options.maxWaitFramesPerStep)
              && NotEarlier(setup, reference, step, minFit, frameIndex, shots, options.poseReadyConsecutive)
  {
    var readyCount: u32, attemptedCount: u32, index: u32 := 0, 0, frameIndex;
    ghost var reference, minFit := service.CurrentReference(), options.poseReadyMinFitScore;
    shots := [];
    while readyCount < options.poseReadyConsecutive && attemptedCount < options.maxWaitFramesPerStep
      invariant camera.taken == old(camera.taken) + shots
      invariant attemptedCount == |shots| <= options.maxWaitFramesPerStep && index == IndexAfter(frameIndex, |shots|)
      invariant readyCount == SteadyFrames(setup, reference, step, minFit, frameIndex, shots) <= options.poseReadyConsecutive
      invariant NotEarlier(setup, reference, step, minFit, frameIndex, shots, options.poseReadyConsecutive)
      decreases options.maxWaitFramesPerStep - attemptedCount
    {
      var shot :- camera.ReadFrame();
      var isReady :- PreviewShot(service, setup, shot, step, index, minFit, options);
      OneMorePreview(setup, reference, step, minFit, frameIndex, shots, shot, options.poseReadyConsecutive);
      readyCount := if isReady then SaturatingIncrement(readyCount) else 0;
      shots := shots + [shot];
      index := SaturatingIncrement(index);
      attemptedCount := SaturatingIncrement(attemptedCount);
    }
    return Ok(Waited(readyCount, attemptedCount, index)), shots;
  }

  /** An observation is accepted exactly when it leaves a candidate, and that candidate is of this step and this face. */
  lemma ObservationMatchesEntry(setup: Setup, reference: Reference, step: GuidedEnrollmentStep, frameIndex: u32, shot: Shot)
    requires CaptureOf(setup.config, setup.compare, reference, shot.frame, step, frameIndex, shot.answers).Ok?
    ensures var observation := CaptureOf(setup.config, setup.compare, reference, shot.frame, step, frameIndex, shot.answers).value;
            var entry := EntryFor(setup.config, setup.compare, reference, setup.model, shot.frame, setup.userId, step, frameIndex,
                                  shot.timestampMs, shot.answers);
            && (PassesSampleGate(observation, setup.config.qualityPolicy.minPoseFitScore) <==> entry.Accepted?)
            && (entry.Accepted? ==>
                  && entry.step == step
                  && |observation.detectedFaces| == 1
                  && observation.detectedFaces[0].bounds == entry.candidate.metadata.faceBox
                  && observation.qualityScore == entry.candidate.metadata.quality.qualityScore)
  {
  }

  lemma EntryIsLeft(setup: Setup, step: GuidedEnrollmentStep, frameIndex: u32, history: History, shot: Shot)
    requires CaptureOf(setup.config, setup.compare, ReferenceAfter(history), shot.frame, step, frameIndex, shot.answers).Ok?
    ensures LeavingOf(setup, step)(frameIndex, history, shot,
              EntryFor(setup.config, setup.compare, ReferenceAfter(history), setup.model, shot.frame, setup.userId, step, frameIndex,
                       shot.timestampMs, shot.answers))
  {
  }

  /** Observes one frame with the service; tells whether it counts, and keeps the best frontal frame. */
  method CaptureShot(service: GuidedFaceEnrollmentService, ghost setup: Setup, userId: string, shot: Shot, step: GuidedEnrollmentStep,
                     frameIndex: u32, options: Options, avatar: Option<Avatar>)
    returns (r: Result<bool, DiagnosticError>, avatar': Option<Avatar>)
    requires service.Valid()
    requires setup == Setup(service.config, service.compare, service.recognitionModel, userId)
    requires options.poseReadyMinFitScore == service.config.qualityPolicy.minPoseFitScore
    modifies service
    ensures service.Valid()
    ensures r.Err? ==> r.error.Video? || r.error.Face?
    ensures r.Ok? ==>
              && |service.history| == |old(service.history)| + 1
              && service.history[..|old(service.history)|] == old(service.history)
              && var entry := service.history[|old(service.history)|];
                 && LeavingOf(setup, step)(frameIndex, old(service.history), shot, entry)
                 && r.value == entry.Accepted? && (entry.Accepted? ==> entry.step == step)
                 && avatar' == BetterAvatar(avatar, entry, shot.frame)
  {
    hide CaptureOf, EntryFor, Leaves;
    avatar' := avatar;
    ghost var reference := service.CurrentReference();
    ghost var history := service.history;
    service.ReferenceIsOfHistory();
    var observed := service.ObserveFrame(shot.frame, userId, step, frameIndex, shot.timestampMs, shot.answers);
    if observed.Err? {
      return Err(Face(observed.error)), avatar;
    }
    var observation := observed.value;
    ObservationMatchesEntry(setup, reference, step, frameIndex, shot);
    EntryIsLeft(setup, step, frameIndex, history, shot);
    var counts := PassesSampleGate(observation, options.poseReadyMinFitScore);
    if counts && step == GuidedEnrollmentStep.FrontalPrimary && |observation.detectedFaces| == 1 {
      if avatar.None? || observation.qualityScore > avatar.value.score {
        avatar' := Some(Avatar(shot.frame, observation.detectedFaces[0].bounds, observation.qualityScore));
      }
    }
    r := Ok(counts);
  }

  /** How many frames were accepted. */
  function AcceptedCount(history: History): nat {
    if history == [] then 0
    else AcceptedCount(history[..|history| - 1]) + if history[|history| - 1].Accepted? then 1 else 0
  }

  /** What one capture phase has done so far, or in the end. */
  datatype Captured = Captured(acceptedCount: u32, attemptedCount: u32, frameIndex: u32, avatar: Option<Avatar>)

  /**
   * The shots, observed from `before` on, led to `history`; the counters say so, and the avatar
   * is the best one of everything captured.  `earlier` are the shots behind `before`.
   */
  ghost predicate Progress(leaves: Leaving, frameIndex: u32, before: History, earlier: seq<Shot>,
                           shots: seq<Shot>, history: History, captured: Captured)
  {
    && Follows(leaves, frameIndex, before, shots, history)
    && |history| == |earlier + shots|
    && captured.attemptedCount == |shots| && captured.frameIndex == IndexAfter(frameIndex, |shots|)
    && captured.avatar == AvatarOf(history, earlier + shots)
    && AcceptedCount(history) == AcceptedCount(before) + captured.acceptedCount
  }

  function CountedShot(captured: Captured, counts: bool, avatar: Option<Avatar>): Captured {
    Captured(if counts then SaturatingIncrement(captured.acceptedCount) else captured.acceptedCount,
             SaturatingIncrement(captured.attemptedCount), SaturatingIncrement(captured.frameIndex), avatar)
  }

  lemma OneMoreCapture(leaves: Leaving, frameIndex: u32, before: History, earlier: seq<Shot>,
                       shots: seq<Shot>, history: History, captured: Captured, shot: Shot, after: History)
    requires Progress(leaves, frameIndex, before, earlier, shots, history, captured)
    requires captured.attemptedCount < U32_MAX && captured.acceptedCount < U32_MAX
    requires |after| == |history| + 1 && after[..|history|] == history
    requires leaves(captured.frameIndex, history, shot, after[|history|])
    ensures Progress(leaves, frameIndex, before, earlier, shots + [shot], after,
                     CountedShot(captured, after[|history|].Accepted?, BetterAvatar(captured.avatar, after[|history|], shot.frame)))
  {
    var seen := earlier + shots;
    assert (shots + [shot])[..|shots|] == shots;
    assert earlier + (shots + [shot]) == seen + [shot];
    assert (seen + [shot])[..|seen|] == seen;
  }

  lemma NothingCaptured(leaves: Leaving, frameIndex: u32, before: History, earlier: seq<Shot>,
                        avatar: Option<Avatar>)
    requires |earlier| == |before| && avatar == AvatarOf(before, earlier)
    ensures Progress(leaves, frameIndex, before, earlier, [], before, Captured(0, 0, frameIndex, avatar))
  {
    assert earlier + [] == earlier;
  }

  /** Reads and observes one more frame. */
  method CaptureOneMore(service: GuidedFaceEnrollmentService, camera: Camera, ghost leaves: Leaving, userId: string,
                        step: GuidedEnrollmentStep, options: Options, ghost frameIndex: u32, ghost before: History,
                        ghost earlier: seq<Shot>, ghost shots: seq<Shot>, captured: Captured)
    returns (r: Result<Captured, DiagnosticError>, ghost shots': seq<Shot>)
    requires service.Valid() && camera.isOpen
    requires leaves == LeavingOf(Setup(service.config, service.compare, service.recognitionModel, userId), step)
    requires options.poseReadyMinFitScore == service.config.qualityPolicy.minPoseFitScore
    requires Progress(leaves, frameIndex, before, earlier, shots, service.history, captured)
    requires captured.attemptedCount < U32_MAX && captured.acceptedCount < U32_MAX
    modifies service, camera`position, camera`taken
    ensures service.Valid()
    ensures r.Err? ==> r.error.Video? || r.error.Face?
    ensures r.Ok? ==>
              && |shots'| == 1 && camera.taken == old(camera.taken) + shots'
              && Progress(leaves, frameIndex, before, earlier, shots + shots', service.history, r.value)
              && r.value.attemptedCount == captured.attemptedCount + 1 && r.value.acceptedCount <= captured.acceptedCount + 1
  {
    hide Records, Leaves, Follows, Progress, AvatarOf, AcceptedCount, BetterAvatar, IsFrontal;
    shots' := [];
    ghost var history := service.history;
    ghost var setup := Setup(service.config, service.compare, service.recognitionModel, userId);
    var shot :- camera.ReadFrame();
    var counts, best := CaptureShot(service, setup, userId, shot, step, captured.frameIndex, options, captured.avatar);
    if counts.Err? {
      return Err(counts.error), [];
    }
    OneMoreCapture(leaves, frameIndex, before, earlier, shots, history, captured, shot, service.history);
    return Ok(CountedShot(captured, counts.value, best)), [shot];
  }

  lemma JoinShots(a: seq<Shot>, b: seq<Shot>, c: seq<Shot>)
    ensures a + (b + c) == a + b + c
  {
  }

  /** Captures frames until enough have been accepted or enough have been tried. */
  method CaptureFrames(service: GuidedFaceEnrollmentService, camera: Camera, ghost leaves: Leaving, userId: string,
                       step: GuidedEnrollmentStep, options: Options, frameIndex: u32, avatar: Option<Avatar>, ghost earlier: seq<Shot>)
    returns (r: Result<Captured, DiagnosticError>, ghost shots: seq<Shot>)
    requires service.Valid() && camera.isOpen
    requires leaves == LeavingOf(Setup(service.config, service.compare, service.recognitionModel, userId), step)
    requires options.poseReadyMinFitScore == service.config.qualityPolicy.minPoseFitScore
    requires |earlier| == |service.history| && avatar == AvatarOf(service.history, earlier)
    modifies service, camera`position, camera`taken
    ensures service.Valid()
    ensures r.Err? ==> r.error.Video? || r.error.Face?
    ensures r.Ok? ==>
              && camera.taken == old(camera.taken) + shots
              && Progress(leaves, frameIndex, old(service.history), earlier, shots, service.history, r.value)
              && r.value.acceptedCount <= options.acceptedFramesPerStep && r.value.attemptedCount <= options.maxFramesPerStep
              && (r.value.acceptedCount == options.acceptedFramesPerStep || r.value.attemptedCount == options.maxFramesPerStep)
  {
    hide Leaves, Follows, AvatarOf, AcceptedCount;
    var captured := Captured(0, 0, frameIndex, avatar);
    ghost var before := service.history;
    NothingCaptured(leaves, frameIndex, before, earlier, avatar);
    shots := [];
    while captured.acceptedCount < options.acceptedFramesPerStep && captured.attemptedCount < options.maxFramesPerStep
      invariant service.Valid()
      invariant camera.taken == old(camera.taken) + shots
      invariant Progress(leaves, frameIndex, before, earlier, shots, service.history, captured)
      invariant captured.acceptedCount <= options.acceptedFramesPerStep && captured.attemptedCount <= options.maxFramesPerStep
      decreases options.maxFramesPerStep - captured.attemptedCount
    {
      var next: Result<Captured, DiagnosticError>;
      ghost var one: seq<Shot>;
      next, one := CaptureOneMore(service, camera, leaves, userId, step, options, frameIndex, before, earlier, shots, captured);
      captured :- next;
      JoinShots(old(camera.taken), shots, one);
      shots := shots + one;
    }
    return Ok(captured), shots;
  }

  // ----- one step -----

  /** How many candidates of a step are stored. */
  function StoredFor(history: History, step: GuidedEnrollmentStep): nat {
    |CandidatesOf(history, step.PoseGroup())|
  }

  lemma LeavesOwnStep(setup: Setup, step: GuidedEnrollmentStep, frameIndex: u32, history: History, shot: Shot, entry: Entry)
    requires LeavingOf(setup, step)(frameIndex, history, shot, entry)
    ensures entry.Accepted? ==> entry.step == step
  {
  }

  /** Capturing for a step stores exactly the accepted frames, and stores them for this step only. */
  lemma {:induction false} CapturesAreStored(setup: Setup, step: GuidedEnrollmentStep, frameIndex: u32, before: History,
                                             shots: seq<Shot>, after: History, other: GuidedEnrollmentStep)
    requires Follows(LeavingOf(setup, step), frameIndex, before, shots, after)
    ensures StoredFor(after, other) ==
            StoredFor(before, other) + if other == step then AcceptedCount(after) - AcceptedCount(before) else 0
    ensures before <= after
  {
    if shots != [] {
      var n, last := |shots| - 1, |after| - 1;
      CapturesAreStored(setup, step, frameIndex, before, shots[..n], after[..last], other);
      LeavesOwnStep(setup, step, IndexAfter(frameIndex, n), after[..last], shots[n], after[last]);
      GroupsOfSteps(step, other);
    }
  }

  lemma GroupsOfSteps(a: GuidedEnrollmentStep, b: GuidedEnrollmentStep)
    ensures a.PoseGroup() == b.PoseGroup() <==> a == b
  {
  }

  /** The error that tells how a step fell short: while waiting for the pose, or while capturing. */
  predicate IsShortfall(options: Options, step: GuidedEnrollmentStep, stored: nat, e: DiagnosticError) {
    && e.GuidedEnrollmentStepIncomplete?
    && e.acceptedFrameCount < e.requiredFrameCount
    && if e.step == step.Label() then
         && e.acceptedFrameCount == stored && e.requiredFrameCount == options.acceptedFramesPerStep
         && e.attemptedFrameCount == options.maxFramesPerStep
       else
         && e.step == step.Label() + ":waiting_for_pose"
         && stored == 0 && e.requiredFrameCount == options.poseReadyConsecutive
         && e.attemptedFrameCount == options.maxWaitFramesPerStep
  }

  predicate MayFallShort(options: Options, step: GuidedEnrollmentStep) {
    options.allowPartialEnrollment || IsOptional(step)
  }

  /** What a step leaves behind: as many candidates as asked for, or a shortfall where one is allowed. */
  predicate Settled(options: Options, step: GuidedEnrollmentStep, stored: nat, shortfall: Option<DiagnosticError>) {
    match shortfall
    case None => stored == options.acceptedFramesPerStep
    case Some(e) => MayFallShort(options, step) && stored <= options.acceptedFramesPerStep && IsShortfall(options, step, stored, e)
  }

  datatype StepReport = StepReport(frameIndex: u32, avatar: Option<Avatar>, shortfall: Option<DiagnosticError>)

  /** What holds after a step that did not fail. */
  ghost predicate StepOutcome(options: Options, step: GuidedEnrollmentStep, before: History, history: History,
                              captured: seq<Shot>, report: StepReport)
  {
    && |captured| == |history| && report.avatar == AvatarOf(history, captured)
    && Settled(options, step, StoredFor(history, step), report.shortfall)
    && OthersKept(before, history, step)
  }

  /** A step that may not fall short did. */
  predicate StepFailed(options: Options, step: GuidedEnrollmentStep, history: History, e: DiagnosticError) {
    !MayFallShort(options, step) && IsShortfall(options, step, StoredFor(history, step), e)
  }

  /**
   * How a step went: the frames that were previewed, up to the moment the pose had been held
   * for long enough, and then those that were captured; none if the pose was never steady.
   */
  ghost predicate StepTrace(setup: Setup, options: Options, step: GuidedEnrollmentStep, frameIndex: u32, before: History,
                            previews: seq<Shot>, shots: seq<Shot>, history: History, report: StepReport)
  {
    && NotEarlier(setup, ReferenceAfter(before), step, options.poseReadyMinFitScore, frameIndex, previews, options.poseReadyConsecutive)
    && (if SteadyFrames(setup, ReferenceAfter(before), step, options.poseReadyMinFitScore, frameIndex, previews)
           < options.poseReadyConsecutive
        then shots == [] && history == before && |previews| == options.maxWaitFramesPerStep && report.shortfall.Some?
        else Follows(LeavingOf(setup, step), IndexAfter(frameIndex, |previews|), before, shots, history))
    && report.frameIndex == IndexAfter(frameIndex, |previews| + |shots|)
  }

  /** Waits for the pose of a step and captures its frames. */
  method EnrollStep(service: GuidedFaceEnrollmentService, camera: Camera, userId: string, step: GuidedEnrollmentStep,
                    options: Options, frameIndex: u32, avatar: Option<Avatar>, ghost captured: seq<Shot>)
    returns (r: Result<StepReport, DiagnosticError>, ghost previews: seq<Shot>, ghost shots: seq<Shot>)
    requires service.Valid() && camera.isOpen
    requires options.poseReadyMinFitScore == service.config.qualityPolicy.minPoseFitScore
    requires StoredFor(service.history, step) == 0
    requires |captured| == |service.history| && avatar == AvatarOf(service.history, captured)
    modifies service, camera
    ensures service.Valid()
    ensures r.Ok? ==> camera.isOpen && StepOutcome(options, step, old(service.history), service.history, captured + shots, r.value)
    ensures r.Ok? ==>
              && camera.taken == old(camera.taken) + previews + shots
              && StepTrace(Setup(service.config, service.compare, service.recognitionModel, userId), options, step, frameIndex,
                           old(service.history), previews, shots, service.history, r.value)
    ensures r.Err? ==>
              r.error.Video? || r.error.Face? || (!camera.isOpen && StepFailed(options, step, service.history, r.error))
  {
    hide StepOutcome, StepFailed, StepTrace, NotEarlier, SteadyFrames, Follows, Leaves;
    var waited;
    shots := [];
    ghost var before := service.history;
    service.ReferenceIsOfHistory();
    ghost var setup := Setup(service.config, service.compare, service.recognitionModel, userId);
    waited, previews := WaitForPose(service, camera, setup, step, options, frameIndex);
    if waited.Err? {
      return Err(waited.error), previews, [];
    }
    var w := waited.value;
    if w.readyCount < options.poseReadyConsecutive {
      var incomplete := GuidedEnrollmentStepIncomplete(step.Label() + ":waiting_for_pose", w.readyCount,
                                                       options.poseReadyConsecutive, w.attemptedCount);
      WaitingFellShort(setup, options, step, frameIndex, before, previews, captured, avatar, w);
      assert camera.taken == old(camera.taken) + previews + [];
      if options.allowPartialEnrollment || IsOptional(step) {
        return Ok(StepReport(w.frameIndex, avatar, Some(incomplete))), previews, [];
      }
      camera.Close();
      return Err(incomplete), previews, [];
    }
    r, shots := CaptureStep(service, camera, userId, step, options, w.frameIndex, avatar, captured);
    if r.Ok? {
      CaptureIsTraced(setup, options, step, frameIndex, before, previews, shots, service.history, r.value);
    }
  }

  lemma CaptureIsTraced(setup: Setup, options: Options, step: GuidedEnrollmentStep, frameIndex: u32, before: History,
                        previews: seq<Shot>, shots: seq<Shot>, history: History, report: StepReport)
    requires NotEarlier(setup, ReferenceAfter(before), step, options.poseReadyMinFitScore, frameIndex, previews,
                        options.poseReadyConsecutive)
    requires SteadyFrames(setup, ReferenceAfter(before), step, options.poseReadyMinFitScore, frameIndex, previews)
             == options.poseReadyConsecutive
    requires Follows(LeavingOf(setup, step), IndexAfter(frameIndex, |previews|), before, shots, history)
    requires report.frameIndex == IndexAfter(IndexAfter(frameIndex, |previews|), |shots|)
    ensures StepTrace(setup, options, step, frameIndex, before, previews, shots, history, report)
  {
  }

  lemma WaitingFellShort(setup: Setup, options: Options, step: GuidedEnrollmentStep, frameIndex: u32, before: History,
                         previews: seq<Shot>, captured: seq<Shot>, avatar: Option<Avatar>, w: Waited)
    requires |captured| == |before| && avatar == AvatarOf(before, captured) && StoredFor(before, step) == 0
    requires NotEarlier(setup, ReferenceAfter(before), step, options.poseReadyMinFitScore, frameIndex, previews,
                        options.poseReadyConsecutive)
    requires w.readyCount == SteadyFrames(setup, ReferenceAfter(before), step, options.poseReadyMinFitScore, frameIndex, previews)
    requires w.readyCount < options.poseReadyConsecutive
    requires w.attemptedCount == |previews| == options.maxWaitFramesPerStep && w.frameIndex == IndexAfter(frameIndex, |previews|)
    ensures var incomplete := GuidedEnrollmentStepIncomplete(step.Label() + ":waiting_for_pose", w.readyCount,
                                                             options.poseReadyConsecutive, w.attemptedCount);
            var report := StepReport(w.frameIndex, avatar, Some(incomplete));
            if MayFallShort(options, step) then
              && StepOutcome(options, step, before, before, captured + [], report)
              && StepTrace(setup, options, step, frameIndex, before, previews, [], before, report)
            else StepFailed(options, step, before, incomplete)
  {
    LabelsDiffer(step);
    assert captured + [] == captured;
  }

  /** Captures the frames of a step whose pose is steady. */
  method CaptureStep(service: GuidedFaceEnrollmentService, camera: Camera, userId: string, step: GuidedEnrollmentStep,
                     options: Options, frameIndex: u32, avatar: Option<Avatar>, ghost captured: seq<Shot>)
    returns (r: Result<StepReport, DiagnosticError>, ghost shots: seq<Shot>)
    requires service.Valid() && camera.isOpen
    requires options.poseReadyMinFitScore == service.config.qualityPolicy.minPoseFitScore
    requires StoredFor(service.history, step) == 0
    requires |captured| == |service.history| && avatar == AvatarOf(service.history, captured)
    modifies service, camera
    ensures service.Valid()
    ensures r.Ok? ==> camera.isOpen && StepOutcome(options, step, old(service.history), service.history, captured + shots, r.value)
    ensures r.Ok? ==>
              && camera.taken == old(camera.taken) + shots
              && Follows(LeavingOf(Setup(service.config, service.compare, service.recognitionModel, userId), step), frameIndex,
                         old(service.history), shots, service.history)
              && r.value.frameIndex == IndexAfter(frameIndex, |shots|)
    ensures r.Err? ==>
              r.error.Video? || r.error.Face? || (!camera.isOpen && StepFailed(options, step, service.history, r.error))
  {
    hide Records, StoredFor, StepOutcome, StepFailed, CaptureResult, Leaves, LeavingOf, Follows, Progress, AvatarOf,
         AcceptedCount, OthersKept;
    ghost var setup, before := Setup(service.config, service.compare, service.recognitionModel, userId), service.history;
    var capture;
    capture, shots := CaptureFrames(service, camera, LeavingOf(setup, step), userId, step, options, frameIndex, avatar, captured);
    if capture.Err? {
      return Err(capture.error), shots;
    }
    var c := capture.value;
    CaptureIsStored(setup, step, frameIndex, before, captured, shots, service.history, c);
    CaptureIsSettled(options, step, before, service.history, captured + shots, c);
    r := CaptureResult(options, step, c);
    if r.Err? {
      camera.Close();
    }
  }

  /** Whether enough frames were captured, and what follows if not. */
  function CaptureResult(options: Options, step: GuidedEnrollmentStep, c: Captured): Result<StepReport, DiagnosticError> {
    if c.acceptedCount < options.acceptedFramesPerStep then
      var incomplete := GuidedEnrollmentStepIncomplete(step.Label(), c.acceptedCount, options.acceptedFramesPerStep, c.attemptedCount);
      if options.allowPartialEnrollment || IsOptional(step) then Ok(StepReport(c.frameIndex, c.avatar, Some(incomplete)))
      else Err(incomplete)
    else Ok(StepReport(c.frameIndex, c.avatar, None))
  }

  lemma CaptureIsSettled(options: Options, step: GuidedEnrollmentStep, before: History, history: History, captured: seq<Shot>,
                         c: Captured)
    requires |captured| == |history| && c.avatar == AvatarOf(history, captured)
    requires StoredFor(history, step) == c.acceptedCount <= options.acceptedFramesPerStep
    requires c.acceptedCount == options.acceptedFramesPerStep || c.attemptedCount == options.maxFramesPerStep
    requires OthersKept(before, history, step)
    ensures var r := CaptureResult(options, step, c);
            && (r.Ok? ==> StepOutcome(options, step, before, history, captured, r.value) && r.value.frameIndex == c.frameIndex)
            && (r.Err? ==> StepFailed(options, step, history, r.error))
  {
  }

  /** The candidates of all steps but one are as many as before. */
  predicate OthersKept(before: History, after: History, step: GuidedEnrollmentStep) {
    forall other: GuidedEnrollmentStep :: other != step ==> StoredFor(after, other) == StoredFor(before, other)
  }

  lemma LabelsDiffer(step: GuidedEnrollmentStep)
    ensures step.Label() + ":waiting_for_pose" != step.Label()
  {
    assert |step.Label() + ":waiting_for_pose"| > |step.Label()|;
  }

  lemma CaptureIsStored(setup: Setup, step: GuidedEnrollmentStep, frameIndex: u32, before: History, earlier: seq<Shot>,
                        shots: seq<Shot>, history: History, captured: Captured)
    requires Progress(LeavingOf(setup, step), frameIndex, before, earlier, shots, history, captured)
    ensures StoredFor(history, step) == StoredFor(before, step) + captured.acceptedCount
    ensures OthersKept(before, history, step)
    ensures |earlier + shots| == |history| && captured.avatar == AvatarOf(history, earlier + shots)
    ensures Follows(LeavingOf(setup, step), frameIndex, before, shots, history)
    ensures captured.frameIndex == IndexAfter(frameIndex, |shots|)
  {
    forall other: GuidedEnrollmentStep ensures other != step ==> StoredFor(history, other) == StoredFor(before, other) {
      CapturesAreStored(setup, step, frameIndex, before, shots, history, other);
    }
    CapturesAreStored(setup, step, frameIndex, before, shots, history, step);
  }

  // ----- the whole run -----

  datatype Completed = Completed(
    templateSet: FaceTemplateSet,
    report: GuidedEnrollmentReport,
    partialReasons: seq<DiagnosticError>,
    avatar: Option<Avatar>)

  const DETECTOR: FaceModelDescriptor := FaceModelDescriptor("yunet", "2023mar")

  predicate StoredAsAsked(options: Options, step: GuidedEnrollmentStep, stored: nat) {
    stored <= options.acceptedFramesPerStep && (stored == options.acceptedFramesPerStep || MayFallShort(options, step))
  }

  /** The first `done` steps are settled and nothing is stored for the others. */
  ghost predicate StepsSettled(options: Options, steps: seq<GuidedEnrollmentStep>, done: nat, history: History) {
    && (forall i :: 0 <= i < done && i < |steps| ==> StoredAsAsked(options, steps[i], StoredFor(history, steps[i])))
    && (forall step: GuidedEnrollmentStep ::
          (forall i :: 0 <= i < done && i < |steps| ==> steps[i] != step) ==> StoredFor(history, step) == 0)
  }

  /** The reasons that a step adds to those of the run. */
  function ReasonsOf(shortfall: Option<DiagnosticError>): seq<DiagnosticError> {
    match shortfall
    case None => []
    case Some(e) => [e]
  }

  /** Where the run stands after some steps; without a reason against it, all of them are complete. */
  ghost predicate RunStands(options: Options, steps: seq<GuidedEnrollmentStep>, done: nat, history: History, captured: seq<Shot>,
                            avatar: Option<Avatar>, reasons: seq<DiagnosticError>)
  {
    && StepsSettled(options, steps, done, history)
    && |captured| == |history| && avatar == AvatarOf(history, captured)
    && (reasons == [] ==>
          forall i :: 0 <= i < done && i < |steps| ==> StoredFor(history, steps[i]) == options.acceptedFramesPerStep)
  }

  lemma RunStarts(options: Options, steps: seq<GuidedEnrollmentStep>)
    ensures RunStands(options, steps, 0, [], [], None, [])
  {
  }

  predicate AllDifferent(steps: seq<GuidedEnrollmentStep>) {
    forall i, j :: 0 <= i < j < |steps| ==> steps[i] != steps[j]
  }

  lemma OneMoreStep(options: Options, steps: seq<GuidedEnrollmentStep>, done: nat, before: History, captured: seq<Shot>,
                    avatar: Option<Avatar>, reasons: seq<DiagnosticError>, history: History, captured': seq<Shot>, report: StepReport)
    requires done < |steps| && AllDifferent(steps)
    requires RunStands(options, steps, done, before, captured, avatar, reasons)
    requires StepOutcome(options, steps[done], before, history, captured', report)
    ensures RunStands(options, steps, done + 1, history, captured', report.avatar, reasons + ReasonsOf(report.shortfall))
  {
    hide StoredFor, AvatarOf, IsShortfall, MayFallShort;
    forall i | 0 <= i < done ensures StoredFor(history, steps[i]) == StoredFor(before, steps[i]) {
      assert steps[i] != steps[done];
    }
    forall step: GuidedEnrollmentStep | forall i :: 0 <= i < done + 1 ==> steps[i] != step
      ensures StoredFor(history, step) == 0
    {
      assert steps[done] != step;
      assert StoredFor(history, step) == StoredFor(before, step);
    }
    assert report.shortfall.None? ==> reasons + ReasonsOf(report.shortfall) == reasons;
  }

  /** One step of a run: the frames it previewed and captured, and what it left behind. */
  datatype StepRun = StepRun(previews: seq<Shot>, shots: seq<Shot>, history: History, report: StepReport)

  function HistoryAfter(runs: seq<StepRun>): History {
    if runs == [] then [] else runs[|runs| - 1].history
  }

  function FrameIndexAfter(runs: seq<StepRun>): u32 {
    if runs == [] then 0 else runs[|runs| - 1].report.frameIndex
  }

  /** All frames that were read, in order. */
  function FramesRead(runs: seq<StepRun>): seq<Shot> {
    if runs == [] then [] else FramesRead(runs[..|runs| - 1]) + runs[|runs| - 1].previews + runs[|runs| - 1].shots
  }

  /** The frames that were captured, in order. */
  function FramesCaptured(runs: seq<StepRun>): seq<Shot> {
    if runs == [] then [] else FramesCaptured(runs[..|runs| - 1]) + runs[|runs| - 1].shots
  }

  /** Each step went as its frames say, starting from where the step before it had ended. */
  ghost predicate RunTrace(setup: Setup, options: Options, steps: seq<GuidedEnrollmentStep>, runs: seq<StepRun>) {
    && |runs| <= |steps|
    && (runs != [] ==>
          var n := |runs| - 1;
          var init, last := runs[..n], runs[n];
          && RunTrace(setup, options, steps, init)
          && StepTrace(setup, options, steps[n], FrameIndexAfter(init), HistoryAfter(init), last.previews, last.shots,
                       last.history, last.report))
  }

  lemma OneMoreRun(setup: Setup, options: Options, steps: seq<GuidedEnrollmentStep>, runs: seq<StepRun>, run: StepRun,
                   start: seq<Shot>)
    requires RunTrace(setup, options, steps, runs) && |runs| < |steps|
    requires StepTrace(setup, options, steps[|runs|], FrameIndexAfter(runs), HistoryAfter(runs), run.previews, run.shots,
                       run.history, run.report)
    ensures RunTrace(setup, options, steps, runs + [run])
    ensures HistoryAfter(runs + [run]) == run.history && FrameIndexAfter(runs + [run]) == run.report.frameIndex
    ensures FramesCaptured(runs + [run]) == FramesCaptured(runs) + run.shots
    ensures start + FramesRead(runs + [run]) == start + FramesRead(runs) + run.previews + run.shots
  {
    hide StepTrace;
    assert (runs + [run])[..|runs|] == runs;
  }

  /** `part` is what is left of `whole` when some elements are dropped. */
  predicate IsSubsequence<T(==)>(part: seq<T>, whole: seq<T>) {
    || part == []
    || (whole != []
        && var init := whole[..|whole| - 1];
           IsSubsequence(part, init)
           || (part[|part| - 1] == whole[|whole| - 1] && IsSubsequence(part[..|part| - 1], init)))
  }

  lemma {:induction false} SubsequenceGrows<T>(part: seq<T>, whole: seq<T>, more: seq<T>)
    requires IsSubsequence(part, whole)
    ensures IsSubsequence(part, whole + more) && IsSubsequence(part + more, whole + more)
  {
    if more == [] {
      assert whole + more == whole && part + more == part;
    } else {
      var last := |more| - 1;
      SubsequenceGrows(part, whole, more[..last]);
      assert (whole + more)[..|whole + more| - 1] == whole + more[..last];
      assert (part + more)[..|part + more| - 1] == part + more[..last];
    }
  }

  /** The captured frames are some of the frames read, in the order in which they were read. */
  lemma {:induction false} CapturedFramesWereRead(runs: seq<StepRun>)
    ensures IsSubsequence(FramesCaptured(runs), FramesRead(runs))
  {
    if runs != [] {
      var init, last := runs[..|runs| - 1], runs[|runs| - 1];
      CapturedFramesWereRead(init);
      SubsequenceGrows(FramesCaptured(init), FramesRead(init), last.previews);
      SubsequenceGrows(FramesCaptured(init), FramesRead(init) + last.previews, last.shots);
    }
  }

  /** Runs the next step; the steps before it stay as they are. */
  method EnrollNext(service: GuidedFaceEnrollmentService, camera: Camera, userId: string, steps: seq<GuidedEnrollmentStep>, k: nat,
                    options: Options, frameIndex: u32, avatar: Option<Avatar>, ghost reasons: seq<DiagnosticError>,
                    ghost setup: Setup, ghost runs: seq<StepRun>, ghost start: seq<Shot>)
    returns (r: Result<StepReport, DiagnosticError>, ghost runs': seq<StepRun>)
    requires service.Valid() && camera.isOpen
    requires options.poseReadyMinFitScore == service.config.qualityPolicy.minPoseFitScore
    requires setup == Setup(service.config, service.compare, service.recognitionModel, userId)
    requires |runs| == k < |steps| && AllDifferent(steps)
    requires RunStands(options, steps, k, service.history, FramesCaptured(runs), avatar, reasons)
    requires RunTrace(setup, options, steps, runs) && HistoryAfter(runs) == service.history && FrameIndexAfter(runs) == frameIndex
    requires camera.taken == start + FramesRead(runs)
    modifies service, camera
    ensures service.Valid()
    ensures r.Ok? ==>
              && camera.isOpen && |runs'| == k + 1
              && RunStands(options, steps, k + 1, service.history, FramesCaptured(runs'), r.value.avatar,
                           reasons + ReasonsOf(r.value.shortfall))
              && RunTrace(setup, options, steps, runs') && HistoryAfter(runs') == service.history
              && FrameIndexAfter(runs') == r.value.frameIndex
              && camera.taken == start + FramesRead(runs')
    ensures r.Err? ==>
              r.error.Video? || r.error.Face? || (!camera.isOpen && StepFailed(options, steps[k], service.history, r.error))
  {
    hide Records, StepTrace, StepOutcome, StepFailed, RunTrace, FramesRead, FramesCaptured, FrameIndexAfter, HistoryAfter, AvatarOf;
    ghost var before := service.history;
    ghost var previews, shots;
    NothingStoredYet(options, steps, k, before);
    r, previews, shots := EnrollStep(service, camera, userId, steps[k], options, frameIndex, avatar, FramesCaptured(runs));
    runs' := runs;
    if r.Ok? {
      ghost var run := StepRun(previews, shots, service.history, r.value);
      runs' := runs + [run];
      OneMoreRun(setup, options, steps, runs, run, start);
      OneMoreStep(options, steps, k, before, FramesCaptured(runs), avatar, reasons, service.history, FramesCaptured(runs'), r.value);
    }
  }

  lemma NothingStoredYet(options: Options, steps: seq<GuidedEnrollmentStep>, k: nat, history: History)
    requires k < |steps| && AllDifferent(steps) && StepsSettled(options, steps, k, history)
    ensures StoredFor(history, steps[k]) == 0
  {
    assert forall i :: 0 <= i < k ==> steps[i] != steps[k];
  }

  /** Runs all steps; the reasons tell which of them fell short. */
  method EnrollSteps(service: GuidedFaceEnrollmentService, camera: Camera, userId: string, steps: seq<GuidedEnrollmentStep>,
                     options: Options)
    returns (r: Result<(Option<Avatar>, seq<DiagnosticError>), DiagnosticError>, ghost runs: seq<StepRun>)
    requires service.Valid() && service.history == [] && camera.isOpen
    requires options.poseReadyMinFitScore == service.config.qualityPolicy.minPoseFitScore
    requires AllDifferent(steps)
    modifies service, camera
    ensures service.Valid()
    ensures r.Ok? ==>
              && camera.isOpen && |runs| == |steps|
              && RunStands(options, steps, |steps|, service.history, FramesCaptured(runs), r.value.0, r.value.1)
              && RunTrace(Setup(service.config, service.compare, service.recognitionModel, userId), options, steps, runs)
              && HistoryAfter(runs) == service.history
              && camera.taken == old(camera.taken) + FramesRead(runs)
    ensures r.Err? ==>
              || r.error.Video? || r.error.Face?
              || (!camera.isOpen && exists i :: 0 <= i < |steps| && StepFailed(options, steps[i], service.history, r.error))
  {
    hide Records, RunStands, StepFailed, StepTrace;
    var frameIndex: u32, avatar: Option<Avatar>, reasons: seq<DiagnosticError> := 0, None, [];
    ghost var setup := Setup(service.config, service.compare, service.recognitionModel, userId);
    ghost var start := camera.taken;
    runs := [];
    assert start + [] == start;
    RunStarts(options, steps);
    for k := 0 to |steps|
      invariant service.Valid() && camera.isOpen && |runs| == k
      invariant RunStands(options, steps, k, service.history, FramesCaptured(runs), avatar, reasons)
      invariant RunTrace(setup, options, steps, runs) && HistoryAfter(runs) == service.history && FrameIndexAfter(runs) == frameIndex
      invariant camera.taken == start + FramesRead(runs)
    {
      var done: Result<StepReport, DiagnosticError>;
      done, runs := EnrollNext(service, camera, userId, steps, k, options, frameIndex, avatar, reasons, setup, runs, start);
      if done.Err? {
        return Err(done.error), runs;
      }
      frameIndex, avatar := done.value.frameIndex, done.value.avatar;
      reasons := reasons + ReasonsOf(done.value.shortfall);
    }
    return Ok((avatar, reasons)), runs;
  }

  /** What a completed run hands out, in terms of its steps and the history they left. */
  ghost predicate Accomplished(options: Options, sqrt: SquareRoot, model: FaceModelDescriptor, capabilities: FacePoseCapabilities,
                               enrolment: Enrolment, history: History, runs: seq<StepRun>, completed: Completed)
  {
    var config, steps := ConfigFor(options), SupportedOrderedSteps(capabilities);
    var rule := SimilarityRule(sqrt, config.duplicateSimilarityThreshold);
    && SoundHistory(config, history)
    && completed.templateSet == TemplateSetOf(config, rule, model, enrolment, history)
    && RunStands(options, steps, |steps|, history, FramesCaptured(runs), completed.avatar, completed.partialReasons)
    && completed.report.selectedTemplateCount == |completed.templateSet.templates|
    && completed.report.rejectedSampleCount == RejectedCount(completed.templateSet.sampleMetadata)
    && TalliesOf(PoseGroupSortKey, Map(GroupMark, completed.templateSet.templates), completed.report.poseGroupCounts)
    && TalliesOf(PlaceByName, Map(ReasonMark, completed.templateSet.sampleMetadata), completed.report.rejectReasonCounts)
  }

  /** The whole run, from the opened camera to the template set and the report. */
  method RunGuidedEnroll(camera: Camera, options: Options, sqrt: SquareRoot, model: FaceModelDescriptor,
                         compare: (Embedding, Embedding) -> real, capabilities: FacePoseCapabilities, userId: string,
                         enrollmentId: string, finishedAtUnixMs: i64)
    returns (r: Result<Completed, DiagnosticError>, ghost history: History, ghost runs: seq<StepRun>)
    requires camera.isOpen
    modifies camera
    ensures r.Ok? ==>
              && !camera.isOpen && SupportedOrderedSteps(capabilities) != []
              && Accomplished(options, sqrt, model, capabilities, Enrolment(userId, enrollmentId, DETECTOR, finishedAtUnixMs),
                              history, runs, r.value)
              && RunTrace(Setup(ConfigFor(options), compare, model, userId), options, SupportedOrderedSteps(capabilities), runs)
              && |runs| == |SupportedOrderedSteps(capabilities)| && HistoryAfter(runs) == history
              && camera.taken == old(camera.taken) + FramesRead(runs)
    ensures r.Err? ==>
              || r.error.Video? || r.error.Face?
              || (!camera.isOpen && r.error.InvalidArgument? && SupportedOrderedSteps(capabilities) == [])
              || (!camera.isOpen
                  && exists step :: step in SupportedOrderedSteps(capabilities) && StepFailed(options, step, history, r.error))
    ensures SupportedOrderedSteps(capabilities) == [] ==> r == Err(InvalidArgument) && camera.position == old(camera.position)
  {
    hide Records, Accomplished, StepTrace, StepFailed, RunTrace, FramesRead, FramesCaptured, HistoryAfter, RunStands,
         SupportedOrderedSteps;
    history, runs := [], [];
    var steps := SupportedOrderedSteps(capabilities);
    if steps == [] {
      camera.Close();
      return Err(InvalidArgument), [], [];
    }
    SupportedStepsAreDistinct(capabilities);
    var service := new GuidedFaceEnrollmentService(ConfigFor(options), model, compare);
    var enrolled;
    enrolled, runs := EnrollSteps(service, camera, userId, steps, options);
    history := service.history;
    if enrolled.Err? {
      return Err(enrolled.error), history, runs;
    }
    camera.Close();
    var completed := Complete(service, options, sqrt, capabilities, Enrolment(userId, enrollmentId, DETECTOR, finishedAtUnixMs),
                              enrolled.value.0, enrolled.value.1, runs);
    r := Ok(completed);
  }

  /** Finishes the enrolment of a run and reports it. */
  method Complete(service: GuidedFaceEnrollmentService, options: Options, sqrt: SquareRoot, capabilities: FacePoseCapabilities,
                  enrolment: Enrolment, avatar: Option<Avatar>, reasons: seq<DiagnosticError>, ghost runs: seq<StepRun>)
    returns (completed: Completed)
    requires service.Valid() && service.config == ConfigFor(options)
    requires var steps := SupportedOrderedSteps(capabilities);
             RunStands(options, steps, |steps|, service.history, FramesCaptured(runs), avatar, reasons)
    ensures Accomplished(options, sqrt, service.recognitionModel, capabilities, enrolment, service.history, runs, completed)
  {
    hide Records, RunStands, FramesCaptured, TemplateSetOf, SoundHistory, TalliesOf, SupportedOrderedSteps;
    service.HistoryIsSound();
    var templateSet := service.Finish(sqrt, enrolment);
    var report := BuildGuidedEnrollmentReport(templateSet);
    completed := Completed(templateSet, report, reasons, avatar);
  }

  /**
   * What a completed run without partial enrolment guarantees, if it asks for at least one
   * frame per step: every mandatory step has stored exactly the frames asked for, so the set
   * has templates of the front, the left and the right, and never more than eight.
   */
  lemma CompletedRunCoversTheFace(options: Options, sqrt: SquareRoot, model: FaceModelDescriptor, capabilities: FacePoseCapabilities,
                                  enrolment: Enrolment, history: History, runs: seq<StepRun>, completed: Completed)
    requires Accomplished(options, sqrt, model, capabilities, enrolment, history, runs, completed)
    requires !options.allowPartialEnrollment && options.acceptedFramesPerStep > 0
    ensures forall step: GuidedEnrollmentStep :: step.FrontalPrimary? || step.YawLeftMild? || step.YawRightMild? ==>
              capabilities.estimatesHeadPose ==>
                && StoredFor(history, step) == options.acceptedFramesPerStep
                && 1 <= |TemplatesOf(completed.templateSet, step.PoseGroup())| <= 2
    ensures forall step: GuidedEnrollmentStep :: step.PitchDownMild? || step.PitchUpMild? ==>
              |TemplatesOf(completed.templateSet, step.PoseGroup())| <= 1
    ensures capabilities.estimatesBlink ==> StoredFor(history, GuidedEnrollmentStep.BlinkMotion) == options.acceptedFramesPerStep
    ensures |completed.templateSet.templates| <= 8
    ensures completed.templateSet.thresholdProfile == ThresholdProfile(0.45, options.frameMatchThreshold, 3, 0.55)
  {
    hide TemplateSetOf, TalliesOf, SoundHistory, TemplatesOf, StoredFor, FramesCaptured, ConfigFor;
    var config := ConfigFor(options);
    var rule := SimilarityRule(sqrt, config.duplicateSimilarityThreshold);
    forall step: GuidedEnrollmentStep | capabilities.SupportsTarget(step.PoseTarget()) && !IsOptional(step)
      ensures StoredFor(history, step) == options.acceptedFramesPerStep
    {
      MandatoryStepIsComplete(options, capabilities, history, step);
    }
    TemplatesPerStep(config, rule, model, enrolment, history);
    ProfileOfTheRun(options, rule, model, enrolment, history);
    AtMostEightTemplates(config, rule, model, enrolment, history);
  }

  lemma TemplatesPerStep(config: Config, rule: SimilarityRule, model: FaceModelDescriptor, enrolment: Enrolment, history: History)
    requires SoundHistory(config, history)
    ensures forall step: GuidedEnrollmentStep | !step.BlinkMotion? ::
              var count := |TemplatesOf(TemplateSetOf(config, rule, model, enrolment, history), step.PoseGroup())|;
              && count <= (if step.PitchDownMild? || step.PitchUpMild? then 1 else 2)
              && (count > 0 <==> StoredFor(history, step) > 0)
  {
    hide TemplateSetOf, SoundHistory, TemplatesOf, CandidatesOf;
    forall step: GuidedEnrollmentStep | !step.BlinkMotion?
      ensures var count := |TemplatesOf(TemplateSetOf(config, rule, model, enrolment, history), step.PoseGroup())|;
              && count <= (if step.PitchDownMild? || step.PitchUpMild? then 1 else 2)
              && (count > 0 <==> StoredFor(history, step) > 0)
    {
      TemplatesPerGroup(config, rule, model, enrolment, history, step.PoseGroup());
    }
  }

  lemma ProfileOfTheRun(options: Options, rule: SimilarityRule, model: FaceModelDescriptor, enrolment: Enrolment, history: History)
    ensures TemplateSetOf(ConfigFor(options), rule, model, enrolment, history).thresholdProfile ==
            ThresholdProfile(0.45, options.frameMatchThreshold, 3, 0.55)
  {
    hide KeptSamples, RefusedSamples;
  }

  lemma MandatoryStepIsComplete(options: Options, capabilities: FacePoseCapabilities, history: History, step: GuidedEnrollmentStep)
    requires var steps := SupportedOrderedSteps(capabilities); StepsSettled(options, steps, |steps|, history)
    requires capabilities.SupportsTarget(step.PoseTarget()) && !IsOptional(step) && !options.allowPartialEnrollment
    ensures StoredFor(history, step) == options.acceptedFramesPerStep
  {
    SupportedStepsAreDistinct(capabilities);
    var steps := SupportedOrderedSteps(capabilities);
    var i :| 0 <= i < |steps| && steps[i] == step;
    assert StoredAsAsked(options, steps[i], StoredFor(history, steps[i]));
  }

  /** Without head poses there is nothing to choose from: such a run ends without any template. */
  lemma BlinkOnlyRunHasNoTemplates(options: Options, sqrt: SquareRoot, model: FaceModelDescriptor, capabilities: FacePoseCapabilities,
                                   enrolment: Enrolment, history: History, runs: seq<StepRun>, completed: Completed)
    requires Accomplished(options, sqrt, model, capabilities, enrolment, history, runs, completed)
    requires !capabilities.estimatesHeadPose
    ensures completed.templateSet.templates == []
    ensures completed.templateSet.qualitySummary.selectedTemplateCount == StoredFor(history, GuidedEnrollmentStep.BlinkMotion)
  {
    hide TalliesOf, TemplateSetOf, SoundHistory, SupportedOrderedSteps;
    var config := ConfigFor(options);
    OnlyBlinksAreStored(options, capabilities, history);
    NoTemplatesFromBlinks(config, SimilarityRule(sqrt, config.duplicateSimilarityThreshold), model, enrolment, history);
  }

  lemma OnlyBlinksAreStored(options: Options, capabilities: FacePoseCapabilities, history: History)
    requires !capabilities.estimatesHeadPose
    requires var steps := SupportedOrderedSteps(capabilities); StepsSettled(options, steps, |steps|, history)
    ensures forall step: GuidedEnrollmentStep :: !step.BlinkMotion? ==> StoredFor(history, step) == 0
  {
    SupportedStepsAreDistinct(capabilities);
    var steps := SupportedOrderedSteps(capabilities);
    forall step: GuidedEnrollmentStep | !step.BlinkMotion? ensures StoredFor(history, step) == 0 {
      assert step !in steps;
    }
  }

  lemma NoTemplatesFromBlinks(config: Config, rule: SimilarityRule, model: FaceModelDescriptor, enrolment: Enrolment, history: History)
    requires SoundHistory(config, history)
    requires forall step: GuidedEnrollmentStep :: !step.BlinkMotion? ==> StoredFor(history, step) == 0
    ensures TemplateSetOf(config, rule, model, enrolment, history).templates == []
    ensures TemplateSetOf(config, rule, model, enrolment, history).qualitySummary.selectedTemplateCount ==
            |CandidatesOf(history, FacePoseGroup.BlinkMotion)|
  {
    NothingChosen(rule, history, 6);
    assert UNLOCK_GROUPS[..6] == UNLOCK_GROUPS;
    SummaryCounts(config, rule, model, enrolment, history);
  }

  lemma {:induction false} NothingChosen(rule: SimilarityRule, history: History, n: nat)
    requires n <= |UNLOCK_GROUPS|
    requires forall step: GuidedEnrollmentStep :: !step.BlinkMotion? ==> StoredFor(history, step) == 0
    ensures Chosen(rule, StoreOf(history), UNLOCK_GROUPS[..n]) == []
  {
    if n > 0 {
      NothingChosen(rule, history, n - 1);
      assert UNLOCK_GROUPS[..n][..n - 1] == UNLOCK_GROUPS[..n - 1];
      StoreHoldsTheCandidates(history, UNLOCK_GROUPS[n - 1]);
      NothingStoredIn(history, n - 1);
      NothingOfAMissingGroup(rule, StoreOf(history), UNLOCK_GROUPS[n - 1]);
    }
  }

  lemma NothingStoredIn(history: History, n: nat)
    requires n < |UNLOCK_GROUPS|
    requires forall step: GuidedEnrollmentStep :: !step.BlinkMotion? ==> StoredFor(history, step) == 0
    ensures CandidatesOf(history, UNLOCK_GROUPS[n]) == []
  {
    NoFrontalVariants(history);
    assert StoredFor(history, GuidedEnrollmentStep.FrontalPrimary) == 0;
    assert StoredFor(history, GuidedEnrollmentStep.YawLeftMild) == 0;
    assert StoredFor(history, GuidedEnrollmentStep.YawRightMild) == 0;
    assert StoredFor(history, GuidedEnrollmentStep.PitchDownMild) == 0;
    assert StoredFor(history, GuidedEnrollmentStep.PitchUpMild) == 0;
  }
}
