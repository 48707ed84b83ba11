/** What the scores of a sample say about the picture, in numbers. */
module SampleScores {
  import opened RustInts
  import opened Wrappers
  import opened RealMath
  import opened FaceEngine
  import opened FacePose
  import opened Quality

  // ----- the weights -----

  /** In hundredths, the quality is 18 size, 15 sharpness, 17 light, 15 alignment, 20 pose and 15 consistency. */
  lemma QualityInHundredths(frame: VideoFrame, face: DetectedFace, target: FacePoseTarget,
                            pose: Option<FacePoseEstimate>, consistency: Option<real>)
    requires frame.Valid() && (consistency.Some? ==> InUnitRange(consistency.value))
    ensures var q := QualityOf(frame, face, target, pose, consistency);
            100.0 * q.qualityScore ==
            18.0 * q.faceSizeScore + 15.0 * q.blurScore + 17.0 * q.illuminationScore + 15.0 * q.alignmentScore
            + 20.0 * q.poseFitScore + 15.0 * if consistency.Some? then consistency.value else 1.0
  {
    var q := QualityOf(frame, face, target, pose, consistency);
    QualityIsInUnitRange(frame, face, target, pose, consistency);
    hide QualityOf;
    SixShares(q.faceSizeScore, q.blurScore, q.illuminationScore, q.alignmentScore, q.poseFitScore, EmbeddingComponent(consistency));
  }

  lemma SixShares(size: real, blur: real, illumination: real, alignment: real, poseFit: real, embedding: real)
    requires InUnitRange(size) && InUnitRange(blur) && InUnitRange(illumination) && InUnitRange(alignment)
    requires InUnitRange(poseFit) && InUnitRange(embedding)
    ensures WeightedAverage(Components(size, blur, illumination, alignment, poseFit, embedding)) ==
            0.18 * size + 0.15 * blur + 0.17 * illumination + 0.15 * alignment + 0.20 * poseFit + 0.15 * embedding
  {
    var values := Components(size, blur, illumination, alignment, poseFit, embedding);
    assert Map(WeightOf, values) == [0.18, 0.15, 0.17, 0.15, 0.20, 0.15];
    assert Map(ShareOf, values) ==
           [0.18 * size, 0.15 * blur, 0.17 * illumination, 0.15 * alignment, 0.20 * poseFit, 0.15 * embedding];
    SumOfSix(Map(WeightOf, values));
    SumOfSix(Map(ShareOf, values));
  }

  lemma SumOfSix(s: seq<real>)
    requires |s| == 6
    ensures Sum(s) == s[0] + s[1] + s[2] + s[3] + s[4] + s[5]
  {
    assert s[..5][..4] == s[..4] && s[..4][..3] == s[..3] && s[..3][..2] == s[..2] && s[..2][..1] == s[..1];
    assert Sum(s[..1]) == s[0];
    assert Sum(s[..2]) == s[0] + s[1];
    assert Sum(s[..3]) == s[0] + s[1] + s[2];
    assert Sum(s[..4]) == s[0] + s[1] + s[2] + s[3];
    assert Sum(s[..5]) == s[0] + s[1] + s[2] + s[3] + s[4];
  }

  // ----- colours -----

  /** The same picture with its bytes in the other colour order. */
  ghost predicate SameColours(bgr: VideoFrame, rgb: VideoFrame) {
    && bgr.format.Bgr8? && rgb.format.Rgb8? && bgr.Valid() && rgb.Valid()
    && rgb.width == bgr.width && rgb.height == bgr.height
    && forall i: nat :: i < |bgr.data| / 3 ==> Reads(bgr, i) == Backwards(Reads(rgb, i))
  }

  /** A gray picture, and the same one in colour with three equal channels. */
  ghost predicate SameGray(gray: VideoFrame, colour: VideoFrame) {
    && gray.format.Gray8? && !colour.format.Gray8? && gray.Valid() && colour.Valid()
    && colour.width == gray.width && colour.height == gray.height
    && forall i: nat :: i < |gray.data| ==> Reads(colour, i) == (gray.data[i], gray.data[i], gray.data[i])
  }

  /** The three bytes of a pixel. */
  function Reads(frame: VideoFrame, i: nat): (u8, u8, u8) {
    if 3 * i + 2 < |frame.data| then (frame.data[3 * i], frame.data[3 * i + 1], frame.data[3 * i + 2]) else (0, 0, 0)
  }

  function Backwards(pixel: (u8, u8, u8)): (u8, u8, u8) {
    (pixel.2, pixel.1, pixel.0)
  }

  /** The gray of a colour picture, in thousandths: 299 red, 587 green, 114 blue. */
  lemma GrayInThousandths(frame: VideoFrame, i: nat)
    requires frame.Valid() && frame.format.Rgb8? && i < frame.width * frame.height
    ensures i < |GrayscaleValues(frame)|
    ensures 1000.0 * GrayscaleValues(frame)[i] ==
            299.0 * frame.data[3 * i] as real + 587.0 * frame.data[3 * i + 1] as real + 114.0 * frame.data[3 * i + 2] as real
  {
    GrayscaleCoversFrame(frame);
    assert frame.data[3 * i..3 * i + 3] == [frame.data[3 * i], frame.data[3 * i + 1], frame.data[3 * i + 2]];
  }

  /** All that is ever looked at in a picture is its size and its gray values. */
  lemma OnlyGrayCounts(a: VideoFrame, b: VideoFrame, face: DetectedFace, target: FacePoseTarget,
                       pose: Option<FacePoseEstimate>, consistency: Option<real>)
    requires a.Valid() && b.Valid() && a.width == b.width && a.height == b.height && GrayscaleValues(a) == GrayscaleValues(b)
    ensures QualityOf(a, face, target, pose, consistency) == QualityOf(b, face, target, pose, consistency)
  {
    hide FaceRegionBlur, FaceRegionIllumination, WeightedAverage, Components, PoseFitScore, FaceSizeScore, AlignmentScore;
    SameSharpness(a, b, face);
    SameLight(a, b, face);
    SameSize(a, b, face);
  }

  lemma SameSize(a: VideoFrame, b: VideoFrame, face: DetectedFace)
    requires a.width == b.width && a.height == b.height
    ensures FaceSizeScore(a, face) == FaceSizeScore(b, face)
  {
    hide FaceShare;
  }

  lemma SameSharpness(a: VideoFrame, b: VideoFrame, face: DetectedFace)
    requires a.Valid() && b.Valid() && a.width == b.width && a.height == b.height && GrayscaleValues(a) == GrayscaleValues(b)
    ensures FaceRegionBlur(a, face) == FaceRegionBlur(b, face)
  {
    hide GrayscaleValues, BlurOf, PaddedEdges, FirstPixel, PixelsBefore;
    PixelsExist(a);
    PixelsExist(b);
    assert RegionWithin(a, PaddedEdges(face.bounds, FACE_REGION_PADDING)) ==
           RegionWithin(b, PaddedEdges(face.bounds, FACE_REGION_PADDING));
    hide RegionWithin;
  }

  lemma SameLight(a: VideoFrame, b: VideoFrame, face: DetectedFace)
    requires a.Valid() && b.Valid() && a.width == b.width && a.height == b.height && GrayscaleValues(a) == GrayscaleValues(b)
    ensures FaceRegionIllumination(a, face) == FaceRegionIllumination(b, face)
  {
    hide GrayscaleValues, IlluminationOf, RegionRows, PaddedEdges, FirstPixel, PixelsBefore;
    PixelsExist(a);
    PixelsExist(b);
    assert RegionWithin(a, PaddedEdges(face.bounds, FACE_REGION_PADDING)) ==
           RegionWithin(b, PaddedEdges(face.bounds, FACE_REGION_PADDING));
    hide RegionWithin;
  }

  lemma PixelsExist(frame: VideoFrame)
    requires frame.Valid()
    ensures frame.data != []
  {
    PositiveArea(frame.width, frame.height);
  }

  lemma PositiveArea(width: nat, height: nat)
    requires width > 0 && height > 0
    ensures width * height > 0
  {
  }

  /** The order of the colour bytes decides nothing, and a gray picture is scored as its colour copy. */
  lemma FormatDecidesNothing(a: VideoFrame, b: VideoFrame, face: DetectedFace, target: FacePoseTarget,
                             pose: Option<FacePoseEstimate>, consistency: Option<real>)
    requires SameColours(a, b) || SameGray(a, b)
    ensures QualityOf(a, face, target, pose, consistency) == QualityOf(b, face, target, pose, consistency)
  {
    hide QualityOf;
    SameGrayValues(a, b);
    OnlyGrayCounts(a, b, face, target, pose, consistency);
  }

  lemma SameGrayValues(a: VideoFrame, b: VideoFrame)
    requires SameColours(a, b) || SameGray(a, b)
    ensures GrayscaleValues(a) == GrayscaleValues(b)
  {
    GrayscaleCoversFrame(a);
    GrayscaleCoversFrame(b);
    hide GrayscaleValues;
    forall i: nat | i < a.width * a.height ensures GrayscaleValues(a)[i] == GrayscaleValues(b)[i] {
      SamePixel(a, b, i);
    }
  }

  lemma SamePixel(a: VideoFrame, b: VideoFrame, i: nat)
    requires SameColours(a, b) || SameGray(a, b)
    requires i < a.width * a.height == |GrayscaleValues(a)| == |GrayscaleValues(b)|
    ensures GrayscaleValues(a)[i] == GrayscaleValues(b)[i]
  {
    PixelBytes(b, i);
    if a.format.Bgr8? {
      PixelBytes(a, i);
      hide GrayscaleValues;
      assert Reads(a, i) == Backwards(Reads(b, i));
    } else {
      GrayByte(a, i);
      hide GrayscaleValues;
      assert Reads(b, i) == (a.data[i], a.data[i], a.data[i]);
    }
  }

  lemma GrayByte(frame: VideoFrame, i: nat)
    requires frame.Valid() && frame.format.Gray8? && i < frame.width * frame.height
    ensures i < |frame.data| == |GrayscaleValues(frame)| && GrayscaleValues(frame)[i] == frame.data[i] as real
  {
  }

  lemma PixelBytes(frame: VideoFrame, i: nat)
    requires frame.Valid() && !frame.format.Gray8? && i < frame.width * frame.height
    ensures i < |GrayscaleValues(frame)|
    ensures var (x, y, z) := Reads(frame, i);
            GrayscaleValues(frame)[i] == GrayOf(frame.format, [x, y, z])
  {
    GrayscaleCoversFrame(frame);
    assert frame.data[3 * i..3 * i + 3] == [frame.data[3 * i], frame.data[3 * i + 1], frame.data[3 * i + 2]];
  }

  // ----- the region -----

  /** The scored region is made of the frame's pixels that lie in the face box grown by a fifth on every side. */
  lemma RegionSurroundsTheFace(frame: VideoFrame, face: DetectedFace, x: nat, y: nat)
    requires frame.Valid() && face.bounds.width >= 0.0 && face.bounds.height >= 0.0
    ensures var region, box := FaceRegionOf(frame, face, FACE_REGION_PADDING), face.bounds;
            (region.Some? && region.value.xStart <= x < region.value.xEnd && region.value.yStart <= y < region.value.yEnd) <==>
            && x < frame.width && y < frame.height
            && box.x - box.width / 5.0 < x as real + 1.0 && x as real < box.x + box.width * 1.2
            && box.y - box.height / 5.0 < y as real + 1.0 && y as real < box.y + box.height * 1.2
  {
    RegionIsTheTouchedPart(frame, PaddedEdges(face.bounds, FACE_REGION_PADDING));
    hide RegionWithin;
    var edges := PaddedEdges(face.bounds, FACE_REGION_PADDING);
    assert Meets(x, edges.left, edges.right) <==>
           face.bounds.x - face.bounds.width / 5.0 < x as real + 1.0 && x as real < face.bounds.x + face.bounds.width * 1.2;
    assert Meets(y, edges.top, edges.bottom) <==>
           face.bounds.y - face.bounds.height / 5.0 < y as real + 1.0 && y as real < face.bounds.y + face.bounds.height * 1.2;
  }

  // ----- light -----

  /** Light is perfect exactly when the values average 128 and none is nearly black or white. */
  lemma WhenLightIsPerfect(gray: seq<real>)
    requires gray != []
    ensures IlluminationOf(gray) == Some(1.0) <==> Mean(gray) == 128.0 && forall i :: 0 <= i < |gray| ==> 8.0 <= gray[i] <= 247.0
  {
    hide Mean;
    NoneIsKept(gray);
    var saturated := |Filter(Saturated, gray)|;
    var n := |gray| as real;
    assert saturated as real / n * n == saturated as real;
  }

  /**
   * Light in general: what the distance of the mean from the middle leaves counts 65
   * hundredths, and the saturated values take the other 35, all of them from a quarter on.
   */
  lemma LightInParts(gray: seq<real>, saturated: real, count: real)
    requires gray != [] && 0.0 <= Mean(gray) <= 256.0
    requires saturated == |Filter(Saturated, gray)| as real && count == |gray| as real
    ensures IlluminationOf(gray).Some?
    ensures IlluminationOf(gray).value ==
            0.65 * (1.0 - Abs(Mean(gray) - 128.0) / 128.0)
            + if 4.0 * saturated >= count then 0.0 else 0.35 * (1.0 - 4.0 * (saturated / count))
  {
    hide Mean;
    var ratio := saturated / count;
    assert ratio * count == saturated;
    if 4.0 * saturated >= count {
      DivideBounds(saturated, 0.25, ratio, count);
    } else {
      DivideBounds(saturated, 0.0, 0.25, count);
    }
  }

  lemma {:induction false} NoneIsKept(gray: seq<real>)
    ensures |Filter(Saturated, gray)| == 0 <==> forall i :: 0 <= i < |gray| ==> 8.0 <= gray[i] <= 247.0
  {
    if gray != [] {
      NoneIsKept(gray[..|gray| - 1]);
    }
  }

  // ----- sharpness -----

  /** On a parabola the Laplacian is minus twice the two curvatures, wherever the plane below it lies. */
  lemma LaplacianIsCurvature(gray: seq<real>, width: nat, rows: nat, x: nat, y: nat, curveX: real, curveY: real,
                             offset: real, acrossX: real, acrossY: real)
    requires HasRows(gray, width, rows) && 0 < x < width - 1 && 0 < y < rows - 1
    requires forall u: nat, v: nat :: u < width && v < rows ==>
               Pixel(gray, width, rows, u, v) == Bowl(curveX, curveY, offset, acrossX, acrossY, u, v)
    ensures LaplacianAt(gray, width, rows, x, y) == -2.0 * curveX - 2.0 * curveY
  {
    hide Bowl;
    BowlAround(curveX, curveY, offset, acrossX, acrossY, x, y);
  }

  function Bowl(curveX: real, curveY: real, offset: real, acrossX: real, acrossY: real, x: nat, y: nat): real {
    curveX * (x * x) as real + curveY * (y * y) as real + acrossX * x as real + acrossY * y as real + offset
  }

  lemma BowlAround(curveX: real, curveY: real, offset: real, acrossX: real, acrossY: real, x: nat, y: nat)
    requires x > 0 && y > 0
    ensures 4.0 * Bowl(curveX, curveY, offset, acrossX, acrossY, x, y)
            - Bowl(curveX, curveY, offset, acrossX, acrossY, x, y - 1) - Bowl(curveX, curveY, offset, acrossX, acrossY, x, y + 1)
            - Bowl(curveX, curveY, offset, acrossX, acrossY, x - 1, y) - Bowl(curveX, curveY, offset, acrossX, acrossY, x + 1, y)
            == -2.0 * curveX - 2.0 * curveY
  {
  }

  function SquareOf(x: real): real {
    x * x
  }

  /** The variance by its moments: the mean of the squares less the square of the mean. */
  lemma VarianceByMoments(values: seq<real>)
    requires values != []
    ensures Variance(values) == Mean(Map(SquareOf, values)) - SquareOf(Mean(values))
  {
    var mean, squares := Mean(values), Map(SquareOf, values);
    assert |SquaredDeltas(values, mean)| == |values|;
    hide SquareOf, SquaredDeltas, MultipliedOut;
    SumOfSquaredDeltas(values, mean);
    MomentsOverN(|values| as real, mean, Sum(squares), Sum(values), Sum(SquaredDeltas(values, mean)), Variance(values), Mean(squares));
  }

  /** The sum of the squared distances from `mean`, multiplied out. */
  function MultipliedOut(squares: real, sum: real, n: real, mean: real): real {
    squares - 2.0 * mean * sum + n * SquareOf(mean)
  }

  lemma {:induction false} SumOfSquaredDeltas(values: seq<real>, mean: real)
    ensures Sum(SquaredDeltas(values, mean)) == MultipliedOut(Sum(Map(SquareOf, values)), Sum(values), |values| as real, mean)
  {
    if values != [] {
      var n := |values| - 1;
      SumOfSquaredDeltas(values[..n], mean);
      LastDelta(values, mean);
      hide SquareOf, SquaredDeltas, MultipliedOut;
      assert Map(SquareOf, values)[..n] == Map(SquareOf, values[..n]);
      OneMoreDelta(values[n], mean, n as real, Sum(values[..n]), Sum(Map(SquareOf, values[..n])));
    }
  }

  lemma LastDelta(values: seq<real>, mean: real)
    requires values != []
    ensures var deltas, n := SquaredDeltas(values, mean), |values| - 1;
            |deltas| == n + 1 && deltas[..n] == SquaredDeltas(values[..n], mean) && deltas[n] == SquareOf(values[n] - mean)
  {
    var n := |values| - 1;
    assert SquaredDeltas(values, mean)[..n] == SquaredDeltas(values[..n], mean);
  }

  lemma OneMoreDelta(value: real, mean: real, n: real, sum: real, squares: real)
    ensures MultipliedOut(squares, sum, n, mean) + SquareOf(value - mean) ==
            MultipliedOut(squares + SquareOf(value), sum + value, n + 1.0, mean)
  {
  }

  lemma MomentsOverN(n: real, mean: real, squares: real, sum: real, deltas: real, variance: real, meanSquare: real)
    requires n > 0.0 && mean == sum / n && deltas == MultipliedOut(squares, sum, n, mean)
    requires variance == deltas / n && meanSquare == squares / n
    ensures variance == meanSquare - SquareOf(mean)
  {
    assert sum == mean * n;
    assert deltas == squares - n * SquareOf(mean);
  }

  /** Sharpness is full exactly from a variance of 350 on, and proportional to the variance up to there. */
  lemma SharpnessIsVariance(laplacians: seq<real>)
    ensures SharpnessOf(laplacians) == 1.0 <==> Variance(laplacians) >= 350.0
    ensures SharpnessOf(laplacians) < 1.0 ==> SharpnessOf(laplacians) * 350.0 == Variance(laplacians)
  {
    hide Variance;
    VarianceIsZeroExactlyOnConstants(laplacians);
  }

  // ----- size -----

  /**
   * A face is too small for the default policy when it takes less than two hundredths of the
   * picture, and just as well when it takes more than 69.5 of them; from 8 to 45 it is right.
   */
  lemma WhichFacesAreTooSmall(frame: VideoFrame, face: DetectedFace)
    requires frame.Valid()
    ensures var share, score := FaceShare(frame.width, frame.height, face.bounds), FaceSizeScore(frame, face);
            && (score < DEFAULT_QUALITY_POLICY.minFaceSizeScore <==> share < 0.02 || share > 0.695)
            && (score >= 0.5 <==> 0.044 <= share <= 0.625)
            && (score == 1.0 <==> 0.08 <= share <= 0.45)
            && (score == 0.0 <==> share <= 0.0 || share >= 0.8)
  {
    hide FaceShare;
  }

  /** A face with its five landmarks scores its confidence, but a doubtful one just a fifth; any other scores nothing. */
  lemma WhichFacesAreAligned(face: DetectedFace)
    ensures AlignmentScore(face) == 0.0 <==> |face.landmarks| < 5
    ensures |face.landmarks| >= 5 && face.confidence < 0.5 ==> AlignmentScore(face) == 0.2
    ensures |face.landmarks| >= 5 && face.confidence >= 0.5 ==> AlignmentScore(face) == MinReal(face.confidence, 1.0)
  {
  }

  // ----- faces outside the picture -----

  /** A face box that touches no pixel has the sharpness and the light of a box around the whole picture. */
  lemma WholePictureInstead(frame: VideoFrame, face: DetectedFace, around: DetectedFace)
    requires frame.Valid() && FaceRegionOf(frame, face, FACE_REGION_PADDING).None?
    requires FaceRegionOf(frame, around, FACE_REGION_PADDING) == Some(WholeFrame(frame.width, frame.height))
    ensures FaceRegionBlur(frame, face) == FaceRegionBlur(frame, around)
    ensures FaceRegionIllumination(frame, face) == FaceRegionIllumination(frame, around)
  {
    hide BlurOf, IlluminationOf, GrayscaleValues, FaceRegionOf, RegionRows;
    PixelsExist(frame);
    GrayscaleCoversFrame(frame);
    WholeRows(GrayscaleValues(frame), frame.width, frame.height, frame.height);
    assert GrayscaleValues(frame)[..frame.width * frame.height] == GrayscaleValues(frame);
    SmallFramesAreNotScored(frame);
  }

  lemma SmallFramesAreNotScored(frame: VideoFrame)
    ensures frame.width < 3 || frame.height < 3 ==>
              BlurOf(GrayscaleValues(frame), frame.width, WholeFrame(frame.width, frame.height)).None?
  {
  }

  lemma {:induction false} WholeRows(gray: seq<real>, width: nat, rows: nat, y: nat)
    requires HasRows(gray, width, rows) && y <= rows
    ensures 0 <= width * y <= |gray|
    ensures RegionRows(gray, width, WholeFrame(width, rows), y) == gray[..width * y]
  {
    if y > 0 {
      WholeRows(gray, width, rows, y - 1);
      RowIsASlice(gray, width, rows, y - 1);
      assert width * y == width * (y - 1) + width;
      hide RowPart;
      assert gray[..width * (y - 1)] + gray[width * (y - 1)..width * y] == gray[..width * y];
    }
  }

  lemma RowIsASlice(gray: seq<real>, width: nat, rows: nat, y: nat)
    requires HasRows(gray, width, rows) && y < rows
    ensures 0 <= width * y && width * y + width <= |gray|
    ensures RowPart(gray, width, rows, y, 0, width) == gray[width * y..width * y + width]
  {
    ProductGrowsWithRows(width, y + 1, rows);
    assert y * width == width * y;
  }

  // ----- verdicts -----

  /** The reason a sample is refused for tells the first floor, in this order, that it misses. */
  lemma WhichReasonIsReported(quality: QualityScores, policy: FaceQualityPolicy)
    ensures var reason := RejectReasonForQuality(quality, policy);
            var large, sharp := quality.faceSizeScore >= policy.minFaceSizeScore, quality.blurScore >= policy.minBlurScore;
            var lit, posed := quality.illuminationScore >= policy.minIlluminationScore, quality.poseFitScore >= policy.minPoseFitScore;
            var aligned, good := quality.alignmentScore > 0.0, quality.qualityScore >= policy.minQualityScore;
            && (reason == Some(FaceTooSmall) <==> !large)
            && (reason == Some(BlurTooHigh) <==> large && !sharp)
            && (reason == Some(UnderExposed) <==> large && sharp && !lit)
            && (reason == Some(AlignmentFailed) <==> large && sharp && lit && posed && !aligned)
            && (reason == Some(PoseOutOfExpectedRange) <==> large && sharp && lit && if posed then aligned && !good else true)
  {
  }

  /** The default policy: quality from 0.55 on, size from 0.30, light from 0.35, sharpness from 0.20 and pose from 0.25. */
  lemma WhatTheDefaultPolicyTakes(quality: QualityScores)
    ensures RejectReasonForQuality(quality, DEFAULT_QUALITY_POLICY).None? <==>
            && quality.qualityScore >= 0.55 && quality.faceSizeScore >= 0.30 && quality.illuminationScore >= 0.35
            && quality.blurScore >= 0.20 && quality.poseFitScore >= 0.25 && quality.alignmentScore > 0.0
  {
  }
}
