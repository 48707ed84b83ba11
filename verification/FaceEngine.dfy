/** The data that detection, enrolment and matching share. */
module FaceEngine {
  import opened RustInts
  import opened Wrappers
  import opened Embeddings

  datatype FaceBox = FaceBox(x: real, y: real, width: real, height: real)
  datatype FaceLandmark = FaceLandmark(x: real, y: real)
  datatype DetectedFace = DetectedFace(bounds: FaceBox, landmarks: seq<FaceLandmark>, confidence: real)

  datatype FaceEngineError =
    | ModelNotLoaded
    | ModelLoadFailed
    | ModelPathMissing
    | NoFaceDetected
    | MultipleFacesDetected
    | InvalidFrame
    | InvalidEmbedding
    | InferenceFailed

  datatype FacePoseGroup =
    | FrontalPrimary
    | FrontalVariant
    | YawLeftMild
    | YawRightMild
    | PitchDownMild
    | PitchUpMild
    | BlinkMotion
    | HardPoseDiagnostic
    | RejectedQuality
  {
    predicate SelectedForUnlockByDefault() {
      this in {FrontalPrimary, FrontalVariant, YawLeftMild, YawRightMild, PitchDownMild, PitchUpMild}
    }
  }

  datatype FaceSampleRejectReason =
    | NoFaceDetected
    | MultipleFacesDetected
    | FaceTooSmall
    | FaceTooLargeOrClipped
    | BlurTooHigh
    | UnderExposed
    | OverExposed
    | BacklightTooStrong
    | LandmarkUnstable
    | PoseOutOfExpectedRange
    | AlignmentFailed
    | EmbeddingInconsistentWithPrimary
    | DuplicateTooSimilar

  datatype QualityScores = QualityScores(
    qualityScore: real,
    blurScore: real,
    illuminationScore: real,
    faceSizeScore: real,
    alignmentScore: real,
    poseFitScore: real,
    embeddingConsistencyScore: Option<real>)

  datatype FaceModelDescriptor = FaceModelDescriptor(modelFamily: string, modelVersion: string)

  datatype FaceTemplate = FaceTemplate(
    templateRef: string,
    userId: string,
    modelFamily: string,
    modelVersion: string,
    poseGroup: FacePoseGroup,
    selectedForUnlock: bool,
    qualityScore: Option<real>,
    embedding: Embedding)
  {
    predicate IsCompatibleWith(model: FaceModelDescriptor) {
      modelFamily == model.modelFamily && modelVersion == model.modelVersion
    }
  }

  datatype SampleMetadata = SampleMetadata(
    sampleId: string,
    poseGroup: FacePoseGroup,
    sourceStep: string,
    frameIndex: u32,
    frameTimestampMs: i64,
    faceBox: FaceBox,
    landmarks: seq<FaceLandmark>,
    detectionConfidence: real,
    poseYawDeg: real,
    posePitchDeg: real,
    poseRollDeg: real,
    quality: QualityScores,
    selectedForUnlock: bool,
    rejectReason: Option<FaceSampleRejectReason>)

  datatype ThresholdProfile = ThresholdProfile(
    templateAcceptanceThreshold: real,
    frameMatchThreshold: real,
    requiredConsecutiveMatchCount: u32,
    minQualityScore: real)

  datatype QualitySummary = QualitySummary(
    selectedTemplateCount: nat,
    rejectedSampleCount: nat,
    averageSelectedQualityScore: Option<real>,
    minimumSelectedQualityScore: Option<real>)

  datatype FaceTemplateSet = FaceTemplateSet(
    userId: string,
    detector: FaceModelDescriptor,
    recognizer: FaceModelDescriptor,
    enrollmentId: string,
    enrollmentCreatedAtUnixMs: i64,
    thresholdProfile: ThresholdProfile,
    templates: seq<FaceTemplate>,
    sampleMetadata: seq<SampleMetadata>,
    qualitySummary: QualitySummary)
  {
    /** The templates that take part in unlocking. */
    function SelectedTemplates(): seq<FaceTemplate> {
      Filter((template: FaceTemplate) => template.selectedForUnlock, templates)
    }
  }

  /** `f` applied to every element, in order. */
  function Map<X, Y>(f: X -> Y, s: seq<X>): (mapped: seq<Y>)
    ensures |mapped| == |s| && forall i :: 0 <= i < |s| ==> mapped[i] == f(s[i])
  {
    seq(|s|, i requires 0 <= i < |s| => f(s[i]))
  }

  /** The elements that `keep` holds of, in order. */
  function Filter<X>(keep: X -> bool, s: seq<X>): (kept: seq<X>)
    ensures |kept| <= |s|
  {
    if s == [] then []
    else Filter(keep, s[..|s| - 1]) + if keep(s[|s| - 1]) then [s[|s| - 1]] else []
  }

  lemma {:induction false} FilterSplits<X>(keep: X -> bool, s: seq<X>, t: seq<X>)
    ensures Filter(keep, s + t) == Filter(keep, s) + Filter(keep, t)
  {
    if t == [] {
      assert s + t == s;
    } else {
      var last, whole := |t| - 1, s + t;
      FilterSplits(keep, s, t[..last]);
      assert whole[..|whole| - 1] == s + t[..last] && whole[|whole| - 1] == t[last];
    }
  }

  /** Every kept element satisfies `keep` and nothing that satisfies it is lost. */
  lemma {:induction false} FilterKeeps<X>(keep: X -> bool, s: seq<X>)
    ensures forall x :: x in Filter(keep, s) <==> x in s && keep(x)
  {
    if s != [] {
      var last := |s| - 1;
      FilterKeeps(keep, s[..last]);
      assert s == s[..last] + [s[last]];
    }
  }

  lemma {:induction false} FilterEverything<X>(keep: X -> bool, s: seq<X>)
    requires forall i :: 0 <= i < |s| ==> keep(s[i])
    ensures Filter(keep, s) == s
  {
    if s != [] {
      FilterEverything(keep, s[..|s| - 1]);
      assert s == s[..|s| - 1] + [s[|s| - 1]];
    }
  }

  lemma {:induction false} FilterNothing<X>(keep: X -> bool, s: seq<X>)
    requires forall i :: 0 <= i < |s| ==> !keep(s[i])
    ensures Filter(keep, s) == []
  {
    if s != [] {
      FilterNothing(keep, s[..|s| - 1]);
    }
  }
}
