/** The steps of a guided enrolment. */
module EnrollmentSteps {
  import opened FaceEngine
  import opened FacePose

  datatype GuidedEnrollmentStep = FrontalPrimary | YawLeftMild | YawRightMild | PitchDownMild | PitchUpMild | BlinkMotion {

    function PoseGroup(): FacePoseGroup {
      match this
      case FrontalPrimary => FacePoseGroup.FrontalPrimary
      case YawLeftMild => FacePoseGroup.YawLeftMild
      case YawRightMild => FacePoseGroup.YawRightMild
      case PitchDownMild => FacePoseGroup.PitchDownMild
      case PitchUpMild => FacePoseGroup.PitchUpMild
      case BlinkMotion => FacePoseGroup.BlinkMotion
    }

    function PoseTarget(): FacePoseTarget {
      match this
      case FrontalPrimary => FacePoseTarget.Frontal
      case YawLeftMild => FacePoseTarget.YawLeftMild
      case YawRightMild => FacePoseTarget.YawRightMild
      case PitchDownMild => FacePoseTarget.PitchDownMild
      case PitchUpMild => FacePoseTarget.PitchUpMild
      case BlinkMotion => FacePoseTarget.BlinkMotion
    }

    function Label(): string {
      match this
      case FrontalPrimary => "frontal_primary"
      case YawLeftMild => "yaw_left_mild"
      case YawRightMild => "yaw_right_mild"
      case PitchDownMild => "pitch_down_mild"
      case PitchUpMild => "pitch_up_mild"
      case BlinkMotion => "blink_motion"
    }
  }

  const ORDERED_STEPS: seq<GuidedEnrollmentStep> :=
    [GuidedEnrollmentStep.FrontalPrimary, GuidedEnrollmentStep.YawLeftMild, GuidedEnrollmentStep.YawRightMild,
     GuidedEnrollmentStep.PitchDownMild, GuidedEnrollmentStep.PitchUpMild, GuidedEnrollmentStep.BlinkMotion]

  function SupportedOrderedSteps(capabilities: FacePoseCapabilities): seq<GuidedEnrollmentStep> {
    Filter((step: GuidedEnrollmentStep) => capabilities.SupportsTarget(step.PoseTarget()), ORDERED_STEPS)
  }

  /** No step comes up twice, and exactly the supported ones come up. */
  lemma SupportedStepsAreDistinct(capabilities: FacePoseCapabilities)
    ensures var steps := SupportedOrderedSteps(capabilities);
            && (forall i, j :: 0 <= i < j < |steps| ==> steps[i] != steps[j])
            && (forall step: GuidedEnrollmentStep :: step in steps <==> capabilities.SupportsTarget(step.PoseTarget()))
  {
    var supported := (step: GuidedEnrollmentStep) => capabilities.SupportsTarget(step.PoseTarget());
    FilterIsDistinct(supported, ORDERED_STEPS);
    FilterKeeps(supported, ORDERED_STEPS);
    assert forall step: GuidedEnrollmentStep :: step in ORDERED_STEPS;
  }

  /** The steps of head poses come first, with the frontal one at their head, and blinking comes last. */
  lemma StepsInOrder(capabilities: FacePoseCapabilities)
    ensures SupportedOrderedSteps(capabilities) ==
            (if capabilities.estimatesHeadPose
             then [GuidedEnrollmentStep.FrontalPrimary, GuidedEnrollmentStep.YawLeftMild, GuidedEnrollmentStep.YawRightMild,
                   GuidedEnrollmentStep.PitchDownMild, GuidedEnrollmentStep.PitchUpMild]
             else [])
            + if capabilities.estimatesBlink then [GuidedEnrollmentStep.BlinkMotion] else []
  {
    var supported := (step: GuidedEnrollmentStep) => capabilities.SupportsTarget(step.PoseTarget());
    var poses, blink := ORDERED_STEPS[..5], [GuidedEnrollmentStep.BlinkMotion];
    assert ORDERED_STEPS == poses + blink;
    FilterSplits(supported, poses, blink);
    AllOrNothing(supported, poses, capabilities.estimatesHeadPose);
    AllOrNothing(supported, blink, capabilities.estimatesBlink);
  }

  lemma AllOrNothing<X>(keep: X -> bool, s: seq<X>, all: bool)
    requires forall i :: 0 <= i < |s| ==> keep(s[i]) == all
    ensures Filter(keep, s) == if all then s else []
  {
    if all {
      FilterEverything(keep, s);
    } else {
      FilterNothing(keep, s);
    }
  }

  lemma {:induction false} FilterIsDistinct<X>(keep: X -> bool, s: seq<X>)
    requires forall i, j :: 0 <= i < j < |s| ==> s[i] != s[j]
    ensures forall i, j :: 0 <= i < j < |Filter(keep, s)| ==> Filter(keep, s)[i] != Filter(keep, s)[j]
  {
    if s != [] {
      var init, last := s[..|s| - 1], s[|s| - 1];
      FilterIsDistinct(keep, init);
      FilterKeeps(keep, init);
      assert forall j :: 0 <= j < |init| ==> init[j] == s[j];
      assert last !in Filter(keep, init);
    }
  }
}
