/**
 * Authentication of frames: preconditions, matching, and what each outcome tells the
 * attempt policy.  What the model provider answers is a parameter of each call.
 */
module Authenticators {
  import opened RustInts
  import opened Wrappers
  import opened RealMath
  import opened Embeddings
  import opened FaceEngine
  import opened FacePose
  import opened Quality
  import opened TemplateMatching
  import Policies = AttemptPolicies

  datatype AuthFailureReason =
    | NoFaceDetected
    | MultipleFacesDetected
    | MatchBelowThreshold
    | IntruderDetected
    | TemplateModelMismatch
    | CooldownActive
    | InternalError

  datatype AuthTriggerSource = CredentialScreenEntered | BackgroundSilentMonitor

  datatype RecognitionTemplates = RecognitionTemplates(templates: seq<FaceTemplate>, averageFaceArea: Option<u32>) {
    predicate HasCompatibleTemplate(model: FaceModelDescriptor) {
      exists i :: 0 <= i < |templates| && templates[i].IsCompatibleWith(model)
    }
  }

  datatype AuthenticationOutcome = AuthenticationOutcome(
    matchedUserId: string,
    matchScore: real,
    matchedTemplate: FaceTemplateMatch,
    matchedPoseGroup: FacePoseGroup)

  /** The answers of the model provider and the landmark pose estimator for one face. */
  datatype FaceAnswers = FaceAnswers(extraction: Result<Embedding, FaceEngineError>, landmarkPose: Option<FacePoseEstimate>)

  function FaceEngineErrorToAuthFailure(error: FaceEngineError): AuthFailureReason {
    match error
    case NoFaceDetected => AuthFailureReason.NoFaceDetected
    case MultipleFacesDetected => AuthFailureReason.MultipleFacesDetected
    case _ => InternalError
  }

  function SingleFace(detection: Result<seq<DetectedFace>, FaceEngineError>): Result<DetectedFace, AuthFailureReason> {
    match detection
    case Err(error) => Err(FaceEngineErrorToAuthFailure(error))
    case Ok(faces) =>
      if faces == [] then Err(AuthFailureReason.NoFaceDetected)
      else if |faces| > 1 then Err(AuthFailureReason.MultipleFacesDetected)
      else Ok(faces[0])
  }

  function ToU32(x: real): u32 {
    Min(ToUnsigned(x), U32_MAX)
  }

  const INTRUDER_POLICY: FaceQualityPolicy :=
    DEFAULT_QUALITY_POLICY.(minPoseFitScore := 0.6, minQualityScore := 0.5)

  function FaceArea(face: DetectedFace): real {
    face.bounds.width * face.bounds.height
  }

  /** The face covers less than four fifths of the area the templates were taken at. */
  predicate TooSmallToTell(face: DetectedFace, templates: RecognitionTemplates) {
    && templates.averageFaceArea.Some?
    && ToU32(FaceArea(face)) < ToU32(templates.averageFaceArea.value as real * 0.8)
  }

  predicate TooPoorToTell(frame: VideoFrame, face: DetectedFace, landmarkPose: Option<FacePoseEstimate>)
    requires frame.Valid()
  {
    !MeetsFloors(QualityOf(frame, face, Frontal, landmarkPose, None), INTRUDER_POLICY)
  }

  /**
   * A score below the intruder threshold is an intruder's, unless the background monitor
   * saw a face too small or too poor to tell.
   */
  predicate LooksLikeIntruder(intruderThreshold: real, score: real, frame: VideoFrame, face: DetectedFace,
                              templates: RecognitionTemplates, trigger: AuthTriggerSource,
                              landmarkPose: Option<FacePoseEstimate>)
    requires frame.Valid()
  {
    && score < intruderThreshold
    && (trigger == BackgroundSilentMonitor ==>
          !TooSmallToTell(face, templates) && !TooPoorToTell(frame, face, landmarkPose))
  }

  /** With a compatible template there is always a best match to judge. */
  lemma PreconditionsGuaranteeAMatch(matcher: FaceTemplateMatcher, templates: RecognitionTemplates,
                                     model: FaceModelDescriptor, candidate: Embedding)
    ensures matcher.BestCompatibleMatch(templates.templates, model, candidate).Some? <==>
            templates.HasCompatibleTemplate(model)
  {
    BestCompatibleMatchIsSound(matcher, templates.templates, model, candidate);
    if templates.HasCompatibleTemplate(model) {
      var i :| 0 <= i < |templates.templates| && templates.templates[i].IsCompatibleWith(model);
      assert templates.templates[i] in templates.templates;
    }
  }

  /** What one judged frame adds to the policy's history. */
  ghost predicate Judged(before: Policies.Log, after: Policies.Log, currentTime: i64,
                         best: FaceTemplateMatch, isIntruder: bool, recordFailure: bool,
                         result: Result<AuthenticationOutcome, AuthFailureReason>)
  {
    if best.decision.MatchAccepted? then
      && after == before + [Policies.MatchRecorded(currentTime, result.Ok?)]
      && result == (if result.Ok?
                    then Ok(AuthenticationOutcome(best.userId, best.score, best, best.poseGroup))
                    else Err(MatchBelowThreshold))
    else if recordFailure then
      && after == before + [Policies.FailureRecorded(currentTime, result == Err(CooldownActive))]
      && (result == Err(CooldownActive) || result == Err(if isIntruder then IntruderDetected else MatchBelowThreshold))
    else
      && after == before
      && result == Err(if isIntruder then IntruderDetected else MatchBelowThreshold)
  }

  /** Which answers end the call before the policy hears of the frame, and with what result. */
  function EarlyResult(templates: RecognitionTemplates, model: FaceModelDescriptor, cooldownActive: bool,
                       detection: Result<DetectedFace, AuthFailureReason>,
                       extraction: Result<Embedding, FaceEngineError>): Option<AuthFailureReason>
  {
    if templates.templates == [] then Some(InternalError)
    else if cooldownActive then Some(CooldownActive)
    else if !templates.HasCompatibleTemplate(model) then Some(TemplateModelMismatch)
    else if detection.Err? then Some(detection.error)
    else if extraction.Err? then Some(FaceEngineErrorToAuthFailure(extraction.error))
    else None
  }

  /**
   * The whole effect of an authentication call: the cooldown is asked about unless there
   * are no templates, and then the frame either ends early, untouched, or is judged by
   * its best compatible match.
   */
  ghost predicate Authenticated(config: Policies.Config, matcher: FaceTemplateMatcher, model: FaceModelDescriptor,
                                before: Policies.Log, after: Policies.Log,
                                frame: VideoFrame, detection: Result<DetectedFace, AuthFailureReason>,
                                answers: FaceAnswers, templates: RecognitionTemplates,
                                trigger: AuthTriggerSource, currentTime: i64, recordFailure: bool,
                                result: Result<AuthenticationOutcome, AuthFailureReason>)
    requires frame.Valid()
  {
    var end := Policies.CooldownEnd(config, before);
    var active := end.Some? && currentTime < end.value;
    var asked := if templates.templates == [] then before
                 else before + [Policies.CooldownQueried(currentTime, active)];
    match EarlyResult(templates, model, active, detection, answers.extraction)
    case Some(reason) => after == asked && result == Err(reason)
    case None =>
      var best := matcher.BestCompatibleMatch(templates.templates, model, answers.extraction.value);
      && best.Some?
      && Judged(asked, after, currentTime, best.value,
                LooksLikeIntruder(config.intruderSimilarityThreshold, best.value.score, frame, detection.value,
                                  templates, trigger, answers.landmarkPose),
                recordFailure, result)
  }

  /**
   * A successful authentication names a compatible template whose score reaches the
   * threshold and that no compatible template outscores, and it is backed by as many
   * matches as the policy asks for.
   */
  lemma AcceptedAuthenticationIsSound(config: Policies.Config, matcher: FaceTemplateMatcher, model: FaceModelDescriptor,
                                      before: Policies.Log, after: Policies.Log, frame: VideoFrame,
                                      detection: Result<DetectedFace, AuthFailureReason>,
                                      answers: FaceAnswers, templates: RecognitionTemplates,
                                      trigger: AuthTriggerSource, currentTime: i64, recordFailure: bool,
                                      result: Result<AuthenticationOutcome, AuthFailureReason>)
    requires frame.Valid() && Policies.Faithful(config, after)
    requires Authenticated(config, matcher, model, before, after, frame, detection, answers, templates,
                           trigger, currentTime, recordFailure, result)
    requires result.Ok?
    ensures answers.extraction.Ok? && |after| == |before| + 2 && before <= after
    ensures IsBestCompatible(matcher, templates.templates, model, answers.extraction.value, result.value.matchedTemplate)
    ensures result.value.matchScore == result.value.matchedTemplate.score >= matcher.threshold
    ensures result.value.matchedUserId == result.value.matchedTemplate.userId
    ensures var w := Policies.WindowStart(after[..|after| - 1]);
            && Policies.Matches(after[w..]) == config.MatchesPerAcceptance()
            && forall j :: w <= j < |after| - 1 ==> !Policies.BreaksMatches(after[j])
  {
    BestCompatibleMatchIsSound(matcher, templates.templates, model, answers.extraction.value);
    Policies.AcceptanceWindow(config, after, |after| - 1);
    var w := Policies.WindowStart(after[..|after| - 1]);
    assert after[w..|after|] == after[w..];
  }

  /** The history once the cooldown was asked about and found not active. */
  function Asked(before: Policies.Log, currentTime: i64): Policies.Log {
    before + [Policies.CooldownQueried(currentTime, false)]
  }

  predicate RecordsAMatch(before: Policies.Log, after: Policies.Log, currentTime: i64) {
    exists accepted :: after == Asked(before, currentTime) + [Policies.MatchRecorded(currentTime, accepted)]
  }

  predicate RecordsAFailure(before: Policies.Log, after: Policies.Log, currentTime: i64) {
    exists started :: after == Asked(before, currentTime) + [Policies.FailureRecorded(currentTime, started)]
  }

  /**
   * Which calls are answered without judging the face, the reasons in their order: nobody is
   * enrolled, a cooldown lasts, no template is for this model, or there is no single face.
   */
  lemma WhatEndsACallEarly(config: Policies.Config, matcher: FaceTemplateMatcher, model: FaceModelDescriptor,
                           before: Policies.Log, after: Policies.Log, frame: VideoFrame,
                           detection: Result<seq<DetectedFace>, FaceEngineError>, answers: FaceAnswers,
                           templates: RecognitionTemplates, trigger: AuthTriggerSource, currentTime: i64,
                           recordFailure: bool, result: Result<AuthenticationOutcome, AuthFailureReason>)
    requires frame.Valid()
    requires Authenticated(config, matcher, model, before, after, frame, SingleFace(detection), answers, templates,
                           trigger, currentTime, recordFailure, result)
    ensures var end := Policies.CooldownEnd(config, before);
            if templates.templates == [] then result == Err(InternalError) && after == before
            else if end.Some? && currentTime < end.value then
              result == Err(CooldownActive) && after == before + [Policies.CooldownQueried(currentTime, true)]
            else if forall template :: template in templates.templates ==> !template.IsCompatibleWith(model) then
              result == Err(TemplateModelMismatch) && after == Asked(before, currentTime)
            else
              && (detection == Ok([]) || detection == Err(FaceEngineError.NoFaceDetected) ==>
                    result == Err(AuthFailureReason.NoFaceDetected) && after == Asked(before, currentTime))
              && (detection == Err(FaceEngineError.MultipleFacesDetected) || (detection.Ok? && |detection.value| > 1) ==>
                    result == Err(AuthFailureReason.MultipleFacesDetected) && after == Asked(before, currentTime))
  {
    hide LooksLikeIntruder, Judged;
    if templates.HasCompatibleTemplate(model) {
      SomeTemplateIsCompatible(templates, model);
    } else {
      forall template | template in templates.templates ensures !template.IsCompatibleWith(model) {
        var i :| 0 <= i < |templates.templates| && templates.templates[i] == template;
      }
    }
  }

  /** No precondition and no answer of the model provider ends the call early. */
  ghost predicate ReachesTheMatcher(config: Policies.Config, model: FaceModelDescriptor, before: Policies.Log,
                                    detection: Result<DetectedFace, AuthFailureReason>, answers: FaceAnswers,
                                    templates: RecognitionTemplates, currentTime: i64)
  {
    var end := Policies.CooldownEnd(config, before);
    EarlyResult(templates, model, end.Some? && currentTime < end.value, detection, answers.extraction).None?
  }

  /**
   * What a frame that reaches the matcher is taken for, in terms of the embeddings alone: it
   * is recorded as a match exactly when some compatible template is within the threshold's
   * angle of it; any other frame is recorded as a failure, or on the scan path not at all.
   */
  lemma MatchesAreTheCloseOnes(config: Policies.Config, matcher: FaceTemplateMatcher, model: FaceModelDescriptor,
                               before: Policies.Log, after: Policies.Log, frame: VideoFrame,
                               detection: Result<DetectedFace, AuthFailureReason>, answers: FaceAnswers,
                               templates: RecognitionTemplates, trigger: AuthTriggerSource, currentTime: i64,
                               recordFailure: bool, result: Result<AuthenticationOutcome, AuthFailureReason>)
    requires frame.Valid() && IsSquareRoot(matcher.sqrt)
    requires Authenticated(config, matcher, model, before, after, frame, detection, answers, templates,
                           trigger, currentTime, recordFailure, result)
    requires ReachesTheMatcher(config, model, before, detection, answers, templates, currentTime)
    ensures if SomeCloseEnough(matcher.sqrt, templates.templates, model, answers.extraction.value, matcher.threshold) then
              && after == Asked(before, currentTime) + [Policies.MatchRecorded(currentTime, result.Ok?)]
              && (result.Ok? || result == Err(MatchBelowThreshold))
            else
              && result.Err?
              && (if recordFailure
                  then after == Asked(before, currentTime) + [Policies.FailureRecorded(currentTime, result == Err(CooldownActive))]
                  else after == Asked(before, currentTime))
  {
    hide LooksLikeIntruder;
    var templateList, candidate := templates.templates, answers.extraction.value;
    SomeTemplateIsCompatible(templates, model);
    BestMatchIsTheClosest(matcher, templateList, model, candidate, matcher.threshold);
  }

  lemma SomeTemplateIsCompatible(templates: RecognitionTemplates, model: FaceModelDescriptor)
    requires templates.HasCompatibleTemplate(model)
    ensures exists template :: template in templates.templates && template.IsCompatibleWith(model)
  {
    var i :| 0 <= i < |templates.templates| && templates.templates[i].IsCompatibleWith(model);
    assert templates.templates[i] in templates.templates;
  }

  /**
   * The enrolled face is recognised: a candidate that is a positive multiple of a compatible
   * template's non-zero embedding is recorded as a match, whatever the trigger, the picture
   * and the other templates are, and never as a failure or an intruder.
   */
  lemma EnrolledFaceIsAMatch(config: Policies.Config, matcher: FaceTemplateMatcher, model: FaceModelDescriptor,
                             before: Policies.Log, after: Policies.Log, frame: VideoFrame,
                             detection: Result<DetectedFace, AuthFailureReason>, answers: FaceAnswers,
                             templates: RecognitionTemplates, trigger: AuthTriggerSource, currentTime: i64,
                             recordFailure: bool, result: Result<AuthenticationOutcome, AuthFailureReason>,
                             i: nat, factor: real)
    requires frame.Valid() && IsSquareRoot(matcher.sqrt) && matcher.threshold <= 1.0
    requires Authenticated(config, matcher, model, before, after, frame, detection, answers, templates,
                           trigger, currentTime, recordFailure, result)
    requires ReachesTheMatcher(config, model, before, detection, answers, templates, currentTime)
    requires i < |templates.templates| && templates.templates[i].IsCompatibleWith(model)
    requires exists k :: 0 <= k < |templates.templates[i].embedding| && templates.templates[i].embedding[k] != 0.0
    requires factor > 0.0 && answers.extraction.value == Scale(factor, templates.templates[i].embedding)
    ensures RecordsAMatch(before, after, currentTime) && !RecordsAFailure(before, after, currentTime)
    ensures result.Ok? || result == Err(MatchBelowThreshold)
  {
    var embedding := templates.templates[i].embedding;
    MultiplesAreWithinAnyAngle(matcher.sqrt, factor, embedding, matcher.threshold);
    assert CloseEnough(matcher.sqrt, embedding, answers.extraction.value, matcher.threshold);
    MatchesAreTheCloseOnes(config, matcher, model, before, after, frame, detection, answers, templates, trigger, currentTime,
                           recordFailure, result);
    var last := |before| + 1;
    assert after[last] == Policies.MatchRecorded(currentTime, result.Ok?);
  }

  /**
   * Who is reported as an intruder, in terms of the embeddings: a face that is no match, that
   * no compatible template comes near, and that the background monitor, if it was that, saw
   * large and well enough; unless its failure started a cooldown.
   */
  lemma IntrudersAreTheDistantOnes(config: Policies.Config, matcher: FaceTemplateMatcher, model: FaceModelDescriptor,
                                   before: Policies.Log, after: Policies.Log, frame: VideoFrame,
                                   detection: Result<DetectedFace, AuthFailureReason>, answers: FaceAnswers,
                                   templates: RecognitionTemplates, trigger: AuthTriggerSource, currentTime: i64,
                                   recordFailure: bool, result: Result<AuthenticationOutcome, AuthFailureReason>)
    requires frame.Valid() && IsSquareRoot(matcher.sqrt)
    requires Authenticated(config, matcher, model, before, after, frame, detection, answers, templates,
                           trigger, currentTime, recordFailure, result)
    requires ReachesTheMatcher(config, model, before, detection, answers, templates, currentTime)
    requires result != Err(CooldownActive)
    ensures var candidate, list := answers.extraction.value, templates.templates;
            result == Err(IntruderDetected) <==>
              && !SomeCloseEnough(matcher.sqrt, list, model, candidate, matcher.threshold)
              && !SomeCloseEnough(matcher.sqrt, list, model, candidate, config.intruderSimilarityThreshold)
              && (trigger == BackgroundSilentMonitor ==>
                    !TooSmallToTell(detection.value, templates) && !TooPoorToTell(frame, detection.value, answers.landmarkPose))
  {
    hide TooSmallToTell, TooPoorToTell;
    var list, candidate := templates.templates, answers.extraction.value;
    SomeTemplateIsCompatible(templates, model);
    BestMatchIsTheClosest(matcher, list, model, candidate, config.intruderSimilarityThreshold);
  }

  /**
   * When a face is too small for the background monitor: not with four fifths of the area of
   * the templates or more, and surely with one pixel less than that.
   */
  lemma FourFifthsAreLargeEnough(face: DetectedFace, templates: RecognitionTemplates)
    requires templates.averageFaceArea.Some? && 0.0 <= FaceArea(face)
    ensures var area, enough := FaceArea(face), templates.averageFaceArea.value as real * 0.8;
            && (area >= enough ==> !TooSmallToTell(face, templates))
            && (area < enough - 1.0 ==> TooSmallToTell(face, templates))
  {
    hide ToU32, FaceArea;
    CastsCompare(FaceArea(face), templates.averageFaceArea.value as real * 0.8);
  }

  /** When a face is too poor for the background monitor: the floors it misses, one by one. */
  lemma WhichFacesAreTooPoor(frame: VideoFrame, face: DetectedFace, landmarkPose: Option<FacePoseEstimate>)
    requires frame.Valid()
    ensures var q := QualityOf(frame, face, Frontal, landmarkPose, None);
            TooPoorToTell(frame, face, landmarkPose) <==>
            || q.faceSizeScore < 0.30 || q.blurScore < 0.20 || q.illuminationScore < 0.35 || q.poseFitScore < 0.6
            || q.alignmentScore <= 0.0 || q.qualityScore < 0.5
  {
    hide QualityOf;
  }

  lemma CastsCompare(area: real, enough: real)
    requires 0.0 <= area && 0.0 <= enough <= U32_MAX as real
    ensures area >= enough ==> ToU32(area) >= ToU32(enough)
    ensures area < enough - 1.0 ==> ToU32(area) < ToU32(enough)
  {
  }

  /** What a scan-path call can add to the history, when it adds no match. */
  lemma NoMatchOnlyAsks(before: Policies.Log, after: Policies.Log, currentTime: i64)
    requires Policies.Matches(after) == Policies.Matches(before)
    requires after == before
             || (exists active :: after == before + [Policies.CooldownQueried(currentTime, active)])
             || (exists active, accepted :: after == before + [Policies.CooldownQueried(currentTime, active)]
                                                     + [Policies.MatchRecorded(currentTime, accepted)])
    ensures after == before || exists active :: after == before + [Policies.CooldownQueried(currentTime, active)]
  {
    forall active, accepted
      ensures Policies.Matches(before + [Policies.CooldownQueried(currentTime, active)]
                                 + [Policies.MatchRecorded(currentTime, accepted)]) == Policies.Matches(before) + 1
    {
      var asked := before + [Policies.CooldownQueried(currentTime, active)];
      assert asked[..|before|] == before;
      assert (asked + [Policies.MatchRecorded(currentTime, accepted)])[..|asked|] == asked;
    }
  }

  class FaceAuthenticator {
    const recognitionModel: FaceModelDescriptor
    const matcher: FaceTemplateMatcher
    const attemptPolicy: Policies.AttemptPolicy

    /** Every recorded attempt in the policy's history was preceded by a cooldown check. */
    ghost predicate Valid()
      reads this, attemptPolicy
    {
      attemptPolicy.Valid() && Policies.Guarded(attemptPolicy.log)
    }

    constructor (model: FaceModelDescriptor, matcher: FaceTemplateMatcher, policy: Policies.AttemptPolicy)
      requires policy.Valid() && policy.log == []
      ensures Valid() && recognitionModel == model && this.matcher == matcher && attemptPolicy == policy
    {
      recognitionModel := model;
      this.matcher := matcher;
      attemptPolicy := policy;
    }

    method ResetConsecutiveMatches()
      requires Valid()
      modifies attemptPolicy
      ensures Valid() && attemptPolicy.log == old(attemptPolicy.log) + [Policies.MatchesReset]
    {
      attemptPolicy.ResetConsecutiveMatches();
      Policies.GuardedStep(old(attemptPolicy.log), Policies.MatchesReset);
    }

    method ValidatePreconditions(templates: RecognitionTemplates, currentTime: i64)
      returns (failure: Option<AuthFailureReason>)
      requires Valid()
      modifies attemptPolicy
      ensures Valid()
      ensures var end := Policies.CooldownEnd(attemptPolicy.config, old(attemptPolicy.log));
              var active := end.Some? && currentTime < end.value;
              && attemptPolicy.log == (if templates.templates == [] then old(attemptPolicy.log)
                                       else old(attemptPolicy.log) + [Policies.CooldownQueried(currentTime, active)])
              && failure == (if templates.templates == [] then Some(InternalError)
                             else if active then Some(CooldownActive)
                             else if !templates.HasCompatibleTemplate(recognitionModel) then Some(TemplateModelMismatch)
                             else None)
    {
      if templates.templates == [] {
        return Some(InternalError);
      }
      ghost var before := attemptPolicy.log;
      var active := attemptPolicy.CooldownIsActive(currentTime);
      Policies.GuardedStep(before, Policies.CooldownQueried(currentTime, active));
      Policies.LastAnswerIsRight(attemptPolicy.config, before, Policies.CooldownQueried(currentTime, active));
      if active {
        return Some(CooldownActive);
      }
      if !templates.HasCompatibleTemplate(recognitionModel) {
        return Some(TemplateModelMismatch);
      }
      return None;
    }

    /**
     * Judges a face once the preconditions have passed.  The recognition model is read
     * again here; without a compatible template for it the frame counts as a failure.
     */
    method JudgeDetectedFace(model: FaceModelDescriptor, frame: VideoFrame, face: DetectedFace,
                             candidate: Embedding, landmarkPose: Option<FacePoseEstimate>,
                             templates: RecognitionTemplates, trigger: AuthTriggerSource,
                             currentTime: i64, recordFailureForCooldown: bool)
      returns (result: Result<AuthenticationOutcome, AuthFailureReason>)
      requires Valid() && frame.Valid()
      requires attemptPolicy.log != []
      requires attemptPolicy.log[|attemptPolicy.log| - 1] == Policies.CooldownQueried(currentTime, false)
      modifies attemptPolicy
      ensures Valid()
      ensures var before, after := old(attemptPolicy.log), attemptPolicy.log;
              match matcher.BestCompatibleMatch(templates.templates, model, candidate)
              case None =>
                && result == Err(MatchBelowThreshold)
                && (if recordFailureForCooldown
                    then exists started :: after == before + [Policies.FailureRecorded(currentTime, started)]
                    else after == before)
              case Some(best) =>
                Judged(before, after, currentTime, best,
                       LooksLikeIntruder(attemptPolicy.config.intruderSimilarityThreshold, best.score, frame, face,
                                         templates, trigger, landmarkPose),
                       recordFailureForCooldown, result)
    {
      ghost var before := attemptPolicy.log;
      var found := matcher.BestCompatibleMatch(templates.templates, model, candidate);
      if found.None? {
        if recordFailureForCooldown {
          var ignored := attemptPolicy.RecordFailedAttempt(currentTime);
          Policies.GuardedStep(before, attemptPolicy.log[|before|]);
        }
        return Err(MatchBelowThreshold);
      }
      var bestMatch := found.value;
      var isIntruder := ClassifyIntruder(bestMatch.score, frame, face, templates, trigger, landmarkPose);
      var decision := RecordVerdict(bestMatch, isIntruder, currentTime, recordFailureForCooldown);
      match decision
      case AuthenticationAccepted =>
        result := Ok(AuthenticationOutcome(bestMatch.userId, bestMatch.score, bestMatch, bestMatch.poseGroup));
      case NeedMoreConsecutiveMatches => result := Err(MatchBelowThreshold);
      case MatchRejectedBelowThreshold => result := Err(MatchBelowThreshold);
      case IntruderDetected => result := Err(IntruderDetected);
      case CooldownActivated => result := Err(CooldownActive);
    }

    method ClassifyIntruder(score: real, frame: VideoFrame, face: DetectedFace, templates: RecognitionTemplates,
                            trigger: AuthTriggerSource, landmarkPose: Option<FacePoseEstimate>)
      returns (isIntruder: bool)
      requires frame.Valid()
      ensures isIntruder <==> LooksLikeIntruder(attemptPolicy.config.intruderSimilarityThreshold, score, frame, face,
                                                templates, trigger, landmarkPose)
    {
      isIntruder := score < attemptPolicy.config.intruderSimilarityThreshold;
      if isIntruder && trigger == BackgroundSilentMonitor {
        if TooSmallToTell(face, templates) {
          isIntruder := false;
        }
        if isIntruder {
          var quality := ScoreFaceSample(frame, face, Frontal, landmarkPose, None);
          if RejectReasonForQuality(quality, INTRUDER_POLICY).Some? {
            isIntruder := false;
          }
        }
      }
    }

    method RecordVerdict(best: FaceTemplateMatch, isIntruder: bool, currentTime: i64, recordFailureForCooldown: bool)
      returns (decision: Policies.Decision)
      requires Valid()
      requires attemptPolicy.log != []
      requires attemptPolicy.log[|attemptPolicy.log| - 1] == Policies.CooldownQueried(currentTime, false)
      modifies attemptPolicy
      ensures Valid()
      ensures best.decision.MatchAccepted? ==>
                && attemptPolicy.log == old(attemptPolicy.log)
                     + [Policies.MatchRecorded(currentTime, decision == Policies.AuthenticationAccepted)]
                && decision in {Policies.AuthenticationAccepted, Policies.NeedMoreConsecutiveMatches}
      ensures !best.decision.MatchAccepted? ==>
                && attemptPolicy.log == old(attemptPolicy.log)
                     + (if recordFailureForCooldown
                        then [Policies.FailureRecorded(currentTime, decision == Policies.CooldownActivated)] else [])
                && ((recordFailureForCooldown && decision == Policies.CooldownActivated)
                    || decision == if isIntruder then Policies.IntruderDetected else Policies.MatchRejectedBelowThreshold)
    {
      ghost var before := attemptPolicy.log;
      if best.decision.MatchAccepted? {
        decision := attemptPolicy.RecordMatchResult(true, false, currentTime);
        Policies.GuardedStep(before, attemptPolicy.log[|before|]);
      } else if recordFailureForCooldown {
        decision := attemptPolicy.RecordMatchResult(false, isIntruder, currentTime);
        Policies.GuardedStep(before, attemptPolicy.log[|before|]);
      } else {
        decision := if isIntruder then Policies.IntruderDetected else Policies.MatchRejectedBelowThreshold;
      }
    }

    method AuthenticateFrame(frame: VideoFrame, detection: Result<seq<DetectedFace>, FaceEngineError>,
                             answers: FaceAnswers, templates: RecognitionTemplates,
                             trigger: AuthTriggerSource, currentTime: i64)
      returns (result: Result<AuthenticationOutcome, AuthFailureReason>)
      requires Valid() && frame.Valid()
      modifies attemptPolicy
      ensures Valid()
      ensures Authenticated(attemptPolicy.config, matcher, recognitionModel, old(attemptPolicy.log), attemptPolicy.log,
                            frame, SingleFace(detection), answers, templates, trigger, currentTime, true, result)
    {
      result := Authenticate(frame, SingleFace(detection), answers, templates, trigger, currentTime, true);
    }

    method AuthenticateDetectedFace(frame: VideoFrame, face: DetectedFace, answers: FaceAnswers,
                                    templates: RecognitionTemplates, trigger: AuthTriggerSource, currentTime: i64)
      returns (result: Result<AuthenticationOutcome, AuthFailureReason>)
      requires Valid() && frame.Valid()
      modifies attemptPolicy
      ensures Valid()
      ensures Authenticated(attemptPolicy.config, matcher, recognitionModel, old(attemptPolicy.log), attemptPolicy.log,
                            frame, Ok(face), answers, templates, trigger, currentTime, true, result)
    {
      result := Authenticate(frame, Ok(face), answers, templates, trigger, currentTime, true);
    }

    /**
     * The scan path.  A frame that does not match leaves the policy's counters as they
     * were, except that asking about a cooldown which is over clears it.
     */
    method AuthenticateWithoutFailureCooldown(frame: VideoFrame, face: DetectedFace, answers: FaceAnswers,
                                              templates: RecognitionTemplates, trigger: AuthTriggerSource,
                                              currentTime: i64)
      returns (result: Result<AuthenticationOutcome, AuthFailureReason>)
      requires Valid() && frame.Valid()
      modifies attemptPolicy
      ensures Valid()
      ensures Authenticated(attemptPolicy.config, matcher, recognitionModel, old(attemptPolicy.log), attemptPolicy.log,
                            frame, Ok(face), answers, templates, trigger, currentTime, false, result)
      ensures Policies.Matches(attemptPolicy.log) == Policies.Matches(old(attemptPolicy.log)) ==>
                attemptPolicy.state ==
                var was := old(attemptPolicy.state);
                if templates.templates != [] && was.cooldownUntil.Some? && was.cooldownUntil.value <= currentTime
                then Policies.State(was.matchCount, 0, None) else was
    {
      result := Authenticate(frame, Ok(face), answers, templates, trigger, currentTime, false);
      ghost var before, after := old(attemptPolicy.log), attemptPolicy.log;
      if Policies.Matches(after) == Policies.Matches(before) {
        NoMatchOnlyAsks(before, after, currentTime);
        Policies.QueryOnlyClears(attemptPolicy.config, before, after, currentTime);
      }
    }

    method Authenticate(frame: VideoFrame, detection: Result<DetectedFace, AuthFailureReason>, answers: FaceAnswers,
                        templates: RecognitionTemplates, trigger: AuthTriggerSource, currentTime: i64,
                        recordFailureForCooldown: bool)
      returns (result: Result<AuthenticationOutcome, AuthFailureReason>)
      requires Valid() && frame.Valid()
      modifies attemptPolicy
      ensures Valid()
      ensures Authenticated(attemptPolicy.config, matcher, recognitionModel, old(attemptPolicy.log), attemptPolicy.log,
                            frame, detection, answers, templates, trigger, currentTime, recordFailureForCooldown, result)
    {
      var failure := ValidatePreconditions(templates, currentTime);
      if failure.Some? {
        return Err(failure.value);
      }
      if detection.Err? {
        return Err(detection.error);
      }
      if answers.extraction.Err? {
        return Err(FaceEngineErrorToAuthFailure(answers.extraction.error));
      }
      PreconditionsGuaranteeAMatch(matcher, templates, recognitionModel, answers.extraction.value);
      result := JudgeDetectedFace(recognitionModel, frame, detection.value, answers.extraction.value,
                                  answers.landmarkPose, templates, trigger, currentTime, recordFailureForCooldown);
    }
  }
}
