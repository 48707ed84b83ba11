/** Head pose estimates and how well one fits the pose a step asks for. */
module FacePose {
  import opened Wrappers
  import opened RealMath

  datatype FacePoseEstimate = FacePoseEstimate(
    yawDeg: real,
    pitchDeg: real,
    rollDeg: real,
    leftEyeBlinkScore: Option<real>,
    rightEyeBlinkScore: Option<real>)
  {
    function BothEyeBlinkScore(): Option<real> {
      if leftEyeBlinkScore.None? || rightEyeBlinkScore.None? then None
      else Some(Clamp(MinReal(leftEyeBlinkScore.value, rightEyeBlinkScore.value), 0.0, 1.0))
    }
  }

  datatype FacePoseTarget = Frontal | YawLeftMild | YawRightMild | PitchDownMild | PitchUpMild | BlinkMotion

  datatype FacePoseCapabilities = FacePoseCapabilities(estimatesHeadPose: bool, estimatesBlink: bool) {
    predicate SupportsTarget(target: FacePoseTarget) {
      if target.BlinkMotion? then estimatesBlink else estimatesHeadPose
    }
  }

  /** One up to `best`, zero from `rejectAt` on, and a straight line between. */
  function LinearScore(value: real, best: real, rejectAt: real): real
    requires best < rejectAt
  {
    if value <= best then 1.0
    else if value >= rejectAt then 0.0
    else 1.0 - (value - best) / (rejectAt - best)
  }

  /** One at `ideal`, falling with the distance from it, and zero outside low..high. */
  function RangeScore(value: real, low: real, high: real, ideal: real): real
    requires low < ideal < high
  {
    if value < low || value > high then 0.0
    else 1.0 - Clamp(Abs(value - ideal) / MaxReal(Abs(ideal - low), Abs(high - ideal)), 0.0, 1.0)
  }

  /** A product under a name, so that proofs can pass it around without doing any arithmetic. */
  function Times(a: real, b: real): real {
    a * b
  }

  /** How well the angle fits that a step is about. */
  function FirstFactor(target: FacePoseTarget, pose: FacePoseEstimate): real {
    match target
    case YawLeftMild => RangeScore(pose.yawDeg, -40.0, -4.0, -18.0)
    case YawRightMild => RangeScore(pose.yawDeg, 4.0, 40.0, 18.0)
    case PitchDownMild => RangeScore(pose.pitchDeg, 4.0, 34.0, 16.0)
    case PitchUpMild => RangeScore(pose.pitchDeg, -34.0, -4.0, -16.0)
    case _ => LinearScore(Abs(pose.yawDeg), 0.0, 24.0)
  }

  /** How well the other angle fits, which the step wants at zero. */
  function SecondFactor(target: FacePoseTarget, pose: FacePoseEstimate): real {
    match target
    case YawLeftMild => LinearScore(Abs(pose.pitchDeg), 0.0, 28.0)
    case YawRightMild => LinearScore(Abs(pose.pitchDeg), 0.0, 28.0)
    case PitchDownMild => LinearScore(Abs(pose.yawDeg), 0.0, 30.0)
    case PitchUpMild => LinearScore(Abs(pose.yawDeg), 0.0, 30.0)
    case _ => LinearScore(Abs(pose.pitchDeg), 0.0, 24.0)
  }

  function TargetScore(target: FacePoseTarget, pose: FacePoseEstimate): real {
    if target.BlinkMotion? then
      match pose.BothEyeBlinkScore()
      case Some(score) => score
      case None => 0.0
    else Times(FirstFactor(target, pose), SecondFactor(target, pose))
  }

  function PoseFitScore(target: FacePoseTarget, estimate: Option<FacePoseEstimate>): (score: real)
    ensures 0.0 <= score <= 1.0
  {
    match estimate
    case None => 0.0
    case Some(pose) => Clamp(Times(TargetScore(target, pose), LinearScore(Abs(pose.rollDeg), 0.0, 18.0)), 0.0, 1.0)
  }

  // ----- what the fit means -----

  /** The yaw and pitch that a step asks for. */
  function AskedAngles(target: FacePoseTarget): (real, real) {
    match target
    case YawLeftMild => (-18.0, 0.0)
    case YawRightMild => (18.0, 0.0)
    case PitchDownMild => (0.0, 16.0)
    case PitchUpMild => (0.0, -16.0)
    case _ => (0.0, 0.0)
  }

  /** The pose a step asks for, to the degree; blinking looks at the eyes alone. */
  predicate IsIdeal(target: FacePoseTarget, pose: FacePoseEstimate) {
    && pose.rollDeg == 0.0
    && if target.BlinkMotion? then EyesAreClosed(pose) else (pose.yawDeg, pose.pitchDeg) == AskedAngles(target)
  }

  predicate EyesAreClosed(pose: FacePoseEstimate) {
    && pose.leftEyeBlinkScore.Some? && pose.leftEyeBlinkScore.value >= 1.0
    && pose.rightEyeBlinkScore.Some? && pose.rightEyeBlinkScore.value >= 1.0
  }

  /** The angle that the step is about is near enough. */
  predicate IsNearFirst(target: FacePoseTarget, pose: FacePoseEstimate) {
    match target
    case YawLeftMild => -40.0 < pose.yawDeg <= -4.0
    case YawRightMild => 4.0 <= pose.yawDeg < 40.0
    case PitchDownMild => 4.0 <= pose.pitchDeg < 34.0
    case PitchUpMild => -34.0 < pose.pitchDeg <= -4.0
    case _ => -24.0 < pose.yawDeg < 24.0
  }

  /** The other angle is near enough to zero. */
  predicate IsNearSecond(target: FacePoseTarget, pose: FacePoseEstimate) {
    match target
    case YawLeftMild => -28.0 < pose.pitchDeg < 28.0
    case YawRightMild => -28.0 < pose.pitchDeg < 28.0
    case PitchDownMild => -30.0 < pose.yawDeg < 30.0
    case PitchUpMild => -30.0 < pose.yawDeg < 30.0
    case _ => -24.0 < pose.pitchDeg < 24.0
  }

  predicate EyesClose(pose: FacePoseEstimate) {
    && pose.leftEyeBlinkScore.Some? && pose.leftEyeBlinkScore.value > 0.0
    && pose.rightEyeBlinkScore.Some? && pose.rightEyeBlinkScore.value > 0.0
  }

  /** The poses that fit a step at all. */
  predicate IsNear(target: FacePoseTarget, pose: FacePoseEstimate) {
    && -18.0 < pose.rollDeg < 18.0
    && if target.BlinkMotion? then EyesClose(pose) else IsNearFirst(target, pose) && IsNearSecond(target, pose)
  }

  lemma ProductOfShares(a: real, b: real, product: real)
    requires 0.0 <= a <= 1.0 && 0.0 <= b <= 1.0 && product == Times(a, b)
    ensures 0.0 <= product <= 1.0
    ensures product > 0.0 <==> a > 0.0 && b > 0.0
    ensures product == 1.0 <==> a == 1.0 && b == 1.0
  {
    if a > 0.0 && b > 0.0 {
      PositiveProduct(a, b, product);
    }
    if a > 0.0 && b < 1.0 {
      PositiveProduct(a, 1.0 - b, a - product);
    } else {
      assert a == 0.0 || b == 1.0;
      assert product == 0.0 || product == a;
    }
  }

  /** How far a pose is from no longer fitting, on the axis that the step is about and on the other one. */
  function Margins(target: FacePoseTarget, pose: FacePoseEstimate): (real, real) {
    var yaw, pitch := pose.yawDeg, pose.pitchDeg;
    match target
    case YawLeftMild => (22.0 - Abs(yaw + 18.0), 28.0 - Abs(pitch))
    case YawRightMild => (22.0 - Abs(yaw - 18.0), 28.0 - Abs(pitch))
    case PitchDownMild => (18.0 - Abs(pitch - 16.0), 30.0 - Abs(yaw))
    case PitchUpMild => (18.0 - Abs(pitch + 16.0), 30.0 - Abs(yaw))
    case _ => (24.0 - Abs(yaw), 24.0 - Abs(pitch))
  }

  /** These shares of the best margins a step allows. */
  function PartsOfMargins(target: FacePoseTarget, first: real, second: real): (real, real) {
    match target
    case YawLeftMild => (22.0 * first, 28.0 * second)
    case YawRightMild => (22.0 * first, 28.0 * second)
    case PitchDownMild => (18.0 * first, 30.0 * second)
    case PitchUpMild => (18.0 * first, 30.0 * second)
    case _ => (24.0 * first, 24.0 * second)
  }

  /** On a side step the ideal angle lies nearer to one end; the farther end takes the score down to zero. */
  lemma SideShare(value: real, low: real, high: real, ideal: real)
    requires (low, high, ideal) in {(-40.0, -4.0, -18.0), (4.0, 40.0, 18.0), (4.0, 34.0, 16.0), (-34.0, -4.0, -16.0)}
    ensures var share := RangeScore(value, low, high, ideal);
            && 0.0 <= share <= 1.0 && (share == 1.0 <==> value == ideal)
            && (share > 0.0 <==> if ideal > 0.0 then low <= value < high else low < value <= high)
  {
  }

  lemma SideMargin(value: real)
    ensures -40.0 < value <= -4.0 ==> 22.0 * RangeScore(value, -40.0, -4.0, -18.0) == 22.0 - Abs(value + 18.0)
    ensures 4.0 <= value < 40.0 ==> 22.0 * RangeScore(value, 4.0, 40.0, 18.0) == 22.0 - Abs(value - 18.0)
    ensures 4.0 <= value < 34.0 ==> 18.0 * RangeScore(value, 4.0, 34.0, 16.0) == 18.0 - Abs(value - 16.0)
    ensures -34.0 < value <= -4.0 ==> 18.0 * RangeScore(value, -34.0, -4.0, -16.0) == 18.0 - Abs(value + 16.0)
  {
  }

  lemma MiddleShare(value: real)
    ensures var share := LinearScore(Abs(value), 0.0, 24.0);
            && 0.0 <= share <= 1.0 && (share == 1.0 <==> value == 0.0) && (share > 0.0 <==> -24.0 < value < 24.0)
            && (share > 0.0 ==> 24.0 * share == 24.0 - Abs(value))
  {
  }

  lemma FirstIsAShare(target: FacePoseTarget, pose: FacePoseEstimate)
    requires !target.BlinkMotion?
    ensures var first := FirstFactor(target, pose);
            && 0.0 <= first <= 1.0 && (first > 0.0 <==> IsNearFirst(target, pose))
            && (first == 1.0 <==> if target.PitchDownMild? || target.PitchUpMild? then pose.pitchDeg == AskedAngles(target).1
                                  else pose.yawDeg == AskedAngles(target).0)
            && (first > 0.0 ==> Margins(target, pose).0 == PartsOfMargins(target, first, 0.0).0)
  {
    hide RangeScore, LinearScore, Abs;
    match target
    case YawLeftMild =>
      SideShare(pose.yawDeg, -40.0, -4.0, -18.0);
      SideMargin(pose.yawDeg);
    case YawRightMild =>
      SideShare(pose.yawDeg, 4.0, 40.0, 18.0);
      SideMargin(pose.yawDeg);
    case PitchDownMild =>
      SideShare(pose.pitchDeg, 4.0, 34.0, 16.0);
      SideMargin(pose.pitchDeg);
    case PitchUpMild =>
      SideShare(pose.pitchDeg, -34.0, -4.0, -16.0);
      SideMargin(pose.pitchDeg);
    case _ =>
      MiddleShare(pose.yawDeg);
  }

  lemma SecondIsAShare(target: FacePoseTarget, pose: FacePoseEstimate)
    requires !target.BlinkMotion?
    ensures var second := SecondFactor(target, pose);
            && 0.0 <= second <= 1.0 && (second > 0.0 <==> IsNearSecond(target, pose))
            && (second == 1.0 <==> if target.PitchDownMild? || target.PitchUpMild? then pose.yawDeg == 0.0 else pose.pitchDeg == 0.0)
            && (second > 0.0 ==> Margins(target, pose).1 == PartsOfMargins(target, 0.0, second).1)
  {
  }

  lemma FactorsAreShares(target: FacePoseTarget, pose: FacePoseEstimate)
    requires !target.BlinkMotion?
    ensures var first, second := FirstFactor(target, pose), SecondFactor(target, pose);
            && 0.0 <= first <= 1.0 && 0.0 <= second <= 1.0
            && (first > 0.0 && second > 0.0 <==> IsNearFirst(target, pose) && IsNearSecond(target, pose))
            && (first == 1.0 && second == 1.0 <==> (pose.yawDeg, pose.pitchDeg) == AskedAngles(target))
            && (first > 0.0 && second > 0.0 ==> Margins(target, pose) == PartsOfMargins(target, first, second))
  {
    hide FirstFactor, SecondFactor, IsNearFirst, IsNearSecond, Abs;
    FirstIsAShare(target, pose);
    SecondIsAShare(target, pose);
  }

  lemma RollIsAShare(roll: real)
    ensures var level := LinearScore(Abs(roll), 0.0, 18.0);
            && 0.0 <= level <= 1.0 && (level > 0.0 <==> -18.0 < roll < 18.0) && (level == 1.0 <==> roll == 0.0)
            && (level > 0.0 ==> 18.0 * level == 18.0 - Abs(roll))
  {
  }

  lemma HeadShare(target: FacePoseTarget, pose: FacePoseEstimate)
    requires !target.BlinkMotion?
    ensures var share := TargetScore(target, pose);
            && 0.0 <= share <= 1.0
            && (share > 0.0 <==> IsNearFirst(target, pose) && IsNearSecond(target, pose))
            && (share == 1.0 <==> (pose.yawDeg, pose.pitchDeg) == AskedAngles(target))
  {
    hide FirstFactor, SecondFactor, IsNearFirst, IsNearSecond, AskedAngles, Margins, PartsOfMargins, Times, TargetScore;
    FactorsAreShares(target, pose);
    HeadScore(target, pose);
    ProductOfShares(FirstFactor(target, pose), SecondFactor(target, pose), TargetScore(target, pose));
  }

  lemma TargetShare(target: FacePoseTarget, pose: FacePoseEstimate)
    ensures var share := TargetScore(target, pose);
            && 0.0 <= share <= 1.0
            && (share > 0.0 <==> IsNear(target, pose.(rollDeg := 0.0)))
            && (share == 1.0 <==> IsIdeal(target, pose.(rollDeg := 0.0)))
  {
    hide FirstFactor, SecondFactor, AskedAngles;
    if !target.BlinkMotion? {
      hide TargetScore;
      HeadShare(target, pose);
    }
  }

  /** The share of the target times that of the roll. */
  lemma ScoreIsAProduct(target: FacePoseTarget, pose: FacePoseEstimate)
    ensures PoseFitScore(target, Some(pose)) == Times(TargetScore(target, pose), LinearScore(Abs(pose.rollDeg), 0.0, 18.0))
  {
    hide LinearScore, TargetScore, IsNear, IsIdeal, Abs, Clamp, Times;
    TargetShare(target, pose);
    RollIsAShare(pose.rollDeg);
    ClampedProduct(TargetScore(target, pose), LinearScore(Abs(pose.rollDeg), 0.0, 18.0));
  }

  lemma ClampedProduct(a: real, b: real)
    requires 0.0 <= a <= 1.0 && 0.0 <= b <= 1.0
    ensures Clamp(Times(a, b), 0.0, 1.0) == Times(a, b)
  {
    ProductOfShares(a, b, Times(a, b));
  }

  /**
   * A pose fits a step exactly when it is near enough on every axis that the step looks at,
   * and fits perfectly exactly when it is the pose that the step asks for.
   */
  lemma WhichPosesFit(target: FacePoseTarget, estimate: Option<FacePoseEstimate>)
    ensures PoseFitScore(target, estimate) > 0.0 <==> estimate.Some? && IsNear(target, estimate.value)
    ensures PoseFitScore(target, estimate) == 1.0 <==> estimate.Some? && IsIdeal(target, estimate.value)
  {
    if estimate.Some? {
      var pose := estimate.value;
      var level := LinearScore(Abs(pose.rollDeg), 0.0, 18.0);
      hide LinearScore, TargetScore, PoseFitScore, Times;
      ScoreIsAProduct(target, pose);
      TargetShare(target, pose);
      RollIsAShare(pose.rollDeg);
      ProductOfShares(TargetScore(target, pose), level, PoseFitScore(target, estimate));
    }
  }

  /** The product of the three margins of the asked pose. */
  function FullMargins(target: FacePoseTarget): real {
    match target
    case YawLeftMild => 11088.0
    case YawRightMild => 11088.0
    case PitchDownMild => 9720.0
    case PitchUpMild => 9720.0
    case _ => 10368.0
  }

  /** The score is to one as the product of the three margins is to the full one. */
  predicate IsPart(score: real, full: real, margins: (real, real), rollMargin: real) {
    score * full == margins.0 * margins.1 * rollMargin
  }

  /** The score of a head pose that fits is the product of its three margins, as a share of the asked pose's. */
  lemma FitIsTheProductOfMargins(target: FacePoseTarget, pose: FacePoseEstimate)
    requires IsNear(target, pose) && !target.BlinkMotion?
    ensures IsPart(PoseFitScore(target, Some(pose)), FullMargins(target), Margins(target, pose), 18.0 - Abs(pose.rollDeg))
  {
    var first, second, level := FirstFactor(target, pose), SecondFactor(target, pose), LinearScore(Abs(pose.rollDeg), 0.0, 18.0);
    hide *;
    HeadScore(target, pose);
    ScoreIsAProduct(target, pose);
    NearFactors(target, pose);
    RescaledProduct(target, PoseFitScore(target, Some(pose)), TargetScore(target, pose), first, second, level,
                    Margins(target, pose), 18.0 - Abs(pose.rollDeg));
  }

  lemma HeadScore(target: FacePoseTarget, pose: FacePoseEstimate)
    requires !target.BlinkMotion?
    ensures TargetScore(target, pose) == Times(FirstFactor(target, pose), SecondFactor(target, pose))
  {
    hide FirstFactor, SecondFactor;
  }

  lemma NearFactors(target: FacePoseTarget, pose: FacePoseEstimate)
    requires IsNear(target, pose) && !target.BlinkMotion?
    ensures Margins(target, pose) == PartsOfMargins(target, FirstFactor(target, pose), SecondFactor(target, pose))
    ensures 18.0 - Abs(pose.rollDeg) == 18.0 * LinearScore(Abs(pose.rollDeg), 0.0, 18.0)
  {
    hide FirstFactor, SecondFactor, IsNearFirst, IsNearSecond, AskedAngles, LinearScore, Margins, PartsOfMargins, Abs;
    FactorsAreShares(target, pose);
    RollIsAShare(pose.rollDeg);
  }

  lemma RescaledProduct(target: FacePoseTarget, score: real, share: real, first: real, second: real, level: real,
                        parts: (real, real), rest: real)
    requires score == Times(share, level) && share == Times(first, second) && parts == PartsOfMargins(target, first, second)
    requires rest == 18.0 * level
    ensures IsPart(score, FullMargins(target), parts, rest)
  {
  }

  /** The same face in a mirror: turned, tilted and blinking the other way round. */
  function Mirrored(pose: FacePoseEstimate): FacePoseEstimate {
    FacePoseEstimate(-pose.yawDeg, pose.pitchDeg, -pose.rollDeg, pose.rightEyeBlinkScore, pose.leftEyeBlinkScore)
  }

  function MirroredTarget(target: FacePoseTarget): FacePoseTarget {
    match target
    case YawLeftMild => YawRightMild
    case YawRightMild => YawLeftMild
    case other => other
  }

  /** A mirrored face fits the mirrored pose just as well. */
  lemma MirrorKeepsTheFit(target: FacePoseTarget, pose: FacePoseEstimate)
    ensures PoseFitScore(MirroredTarget(target), Some(Mirrored(pose))) == PoseFitScore(target, Some(pose))
  {
    hide LinearScore, RangeScore;
    MirroredRange(pose.yawDeg);
    MirroredRange(-pose.yawDeg);
    assert TargetScore(MirroredTarget(target), Mirrored(pose)) == TargetScore(target, pose);
  }

  lemma MirroredRange(value: real)
    ensures RangeScore(-value, 4.0, 40.0, 18.0) == RangeScore(value, -40.0, -4.0, -18.0)
  {
  }
}
