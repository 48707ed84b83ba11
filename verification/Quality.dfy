/**
 * The quality of a face sample: size, sharpness, lighting, alignment, pose and consistency
 * with the primary embedding, and the policy that rejects samples.
 */
module Quality {
  import opened RustInts
  import opened Wrappers
  import opened RealMath
  import opened FaceEngine
  import opened FacePose

  // ----- frames -----

  datatype PixelFormat = Bgr8 | Rgb8 | Gray8 {
    function ChannelCount(): nat {
      if Gray8? then 1 else 3
    }
  }

  type u8 = n: int | 0 <= n <= 255

  datatype VideoFrame = VideoFrame(width: u32, height: u32, format: PixelFormat, data: seq<u8>) {
    /** What `validate` accepts. */
    predicate Valid() {
      width > 0 && height > 0 && |data| == width * height * format.ChannelCount()
    }
  }

  function GrayOf(format: PixelFormat, pixel: seq<u8>): real
    requires |pixel| == format.ChannelCount()
  {
    match format
    case Gray8 => pixel[0] as real
    case Bgr8 => 0.114 * pixel[0] as real + 0.587 * pixel[1] as real + 0.299 * pixel[2] as real
    case Rgb8 => 0.299 * pixel[0] as real + 0.587 * pixel[1] as real + 0.114 * pixel[2] as real
  }

  /** One gray value per whole pixel of the data. */
  function GrayscaleValues(frame: VideoFrame): seq<real> {
    var c := frame.format.ChannelCount();
    seq(|frame.data| / c, i requires 0 <= i < |frame.data| / c =>
      WholePixel(i, c, |frame.data|); GrayOf(frame.format, frame.data[c * i..c * i + c]))
  }

  lemma WholePixel(i: int, c: nat, n: nat)
    requires (c == 1 || c == 3) && 0 <= i < n / c
    ensures 0 <= c * i && c * i + c <= n
  {
  }

  lemma GrayscaleCoversFrame(frame: VideoFrame)
    requires frame.Valid()
    ensures |GrayscaleValues(frame)| == frame.width * frame.height
  {
    var pixels := frame.width * frame.height;
    if !frame.format.Gray8? {
      assert pixels * 3 / 3 == pixels;
    }
  }

  // ----- the padded face region -----

  datatype FaceRegion = FaceRegion(xStart: nat, yStart: nat, xEnd: nat, yEnd: nat) {
    function Width(): nat {
      Max(0, xEnd - xStart)
    }

    function Height(): nat {
      Max(0, yEnd - yStart)
    }
  }

  /** The edges of a face box grown by its padding on every side. */
  datatype Edges = Edges(left: real, right: real, top: real, bottom: real)

  function PaddedEdges(bounds: FaceBox, paddingRatio: real): Edges {
    var paddingX := MaxReal(bounds.width, 0.0) * paddingRatio;
    var paddingY := MaxReal(bounds.height, 0.0) * paddingRatio;
    Edges(bounds.x - paddingX, bounds.x + bounds.width + paddingX,
          bounds.y - paddingY, bounds.y + bounds.height + paddingY)
  }

  function FaceRegionOf(frame: VideoFrame, face: DetectedFace, paddingRatio: real): Option<FaceRegion> {
    RegionWithin(frame, PaddedEdges(face.bounds, paddingRatio))
  }

  function RegionWithin(frame: VideoFrame, edges: Edges): Option<FaceRegion> {
    if frame.width == 0 || frame.height == 0 then None
    else
      var xStart, yStart := FirstPixel(edges.left), FirstPixel(edges.top);
      var xEnd, yEnd := PixelsBefore(edges.right, frame.width), PixelsBefore(edges.bottom, frame.height);
      if xEnd <= xStart || yEnd <= yStart then None
      else Some(FaceRegion(xStart, yStart, xEnd, yEnd))
  }

  function FirstPixel(near: real): nat {
    ToUnsigned(MaxReal(near.Floor as real, 0.0))
  }

  function PixelsBefore(far: real, limit: nat): nat {
    ToUnsigned(MinReal(Ceiling(far) as real, limit as real))
  }

  /** On one axis: the pixel `p`, which covers p..p+1, meets the open interval near..far. */
  predicate Meets(p: int, near: real, far: real) {
    near < (p + 1) as real && p as real < far
  }

  lemma AxisRange(near: real, far: real, limit: nat, p: nat)
    ensures PixelsBefore(far, limit) <= limit
    ensures FirstPixel(near) <= p < PixelsBefore(far, limit) <==> p < limit && Meets(p, near, far)
  {
  }

  /** `region` is made of exactly the frame's pixels that the box touches. */
  ghost predicate IsTouchedPart(frame: VideoFrame, region: Option<FaceRegion>, edges: Edges) {
    && (region.Some? ==>
          && region.value.xStart < region.value.xEnd <= frame.width
          && region.value.yStart < region.value.yEnd <= frame.height)
    && (forall x: nat, y: nat ::
          (x < frame.width && y < frame.height
           && Meets(x, edges.left, edges.right) && Meets(y, edges.top, edges.bottom)) <==>
          (region.Some? && region.value.xStart <= x < region.value.xEnd
           && region.value.yStart <= y < region.value.yEnd))
  }

  /**
   * The region lies inside the frame and consists of exactly the frame's pixels that the
   * padded face box touches; there is none exactly when it touches no pixel.
   */
  lemma RegionIsTheTouchedPart(frame: VideoFrame, edges: Edges)
    ensures IsTouchedPart(frame, RegionWithin(frame, edges), edges)
  {
    forall x: nat, y: nat
      ensures FirstPixel(edges.left) <= x < PixelsBefore(edges.right, frame.width) <==>
              x < frame.width && Meets(x, edges.left, edges.right)
      ensures FirstPixel(edges.top) <= y < PixelsBefore(edges.bottom, frame.height) <==>
              y < frame.height && Meets(y, edges.top, edges.bottom)
    {
      AxisRange(edges.left, edges.right, frame.width, x);
      AxisRange(edges.top, edges.bottom, frame.height, y);
    }
    AxisRange(edges.left, edges.right, frame.width, 0);
    AxisRange(edges.top, edges.bottom, frame.height, 0);
  }

  // ----- sharpness -----

  /** The gray values hold at least `rows` complete rows of `width` pixels. */
  predicate HasRows(gray: seq<real>, width: nat, rows: nat) {
    |gray| >= width * rows
  }

  lemma PixelInRange(width: nat, rows: nat, x: nat, y: nat)
    requires x < width && y < rows
    ensures 0 <= y * width + x < width * rows
  {
    assert width * rows == width * (rows - 1 - y) + width * y + width;
    assert width * (rows - 1 - y) >= 0;
  }

  function Pixel(gray: seq<real>, width: nat, rows: nat, x: nat, y: nat): real
    requires HasRows(gray, width, rows) && x < width && y < rows
  {
    PixelInRange(width, rows, x, y);
    gray[y * width + x]
  }

  function LaplacianAt(gray: seq<real>, width: nat, rows: nat, x: nat, y: nat): real
    requires HasRows(gray, width, rows) && 0 < x < width - 1 && 0 < y < rows - 1
  {
    Pixel(gray, width, rows, x, y) * 4.0
    - (Pixel(gray, width, rows, x, y - 1) + Pixel(gray, width, rows, x, y + 1)
       + Pixel(gray, width, rows, x - 1, y) + Pixel(gray, width, rows, x + 1, y))
  }

  /** The indices that the loops use are in range, and lead to the Laplacian. */
  lemma LaplacianByIndex(gray: seq<real>, width: nat, rows: nat, x: nat, y: nat)
    requires HasRows(gray, width, rows) && 0 < x < width - 1 && 0 < y < rows - 1
    ensures 0 <= (y - 1) * width + x < |gray| && 0 <= (y + 1) * width + x < |gray|
    ensures 0 < y * width + x < |gray| - 1
    ensures gray[y * width + x] * 4.0
            - (gray[(y - 1) * width + x] + gray[(y + 1) * width + x] + gray[y * width + x - 1] + gray[y * width + x + 1])
            == LaplacianAt(gray, width, rows, x, y)
  {
    PixelInRange(width, rows, x, y);
    PixelInRange(width, rows, x, y - 1);
    PixelInRange(width, rows, x, y + 1);
    PixelInRange(width, rows, x - 1, y);
    PixelInRange(width, rows, x + 1, y);
  }

  predicate Fits(gray: seq<real>, width: nat, region: FaceRegion) {
    region.xEnd <= width && HasRows(gray, width, region.yEnd)
  }

  /** The Laplacian of row `y`, for the columns from `x0` up to `x1`. */
  function LaplacianRow(gray: seq<real>, width: nat, rows: nat, y: nat, x0: nat, x1: nat): (values: seq<real>)
    requires HasRows(gray, width, rows) && 0 < x0 <= x1 < width && 0 < y < rows - 1
    ensures |values| == x1 - x0
  {
    seq(x1 - x0, i requires 0 <= i < x1 - x0 => LaplacianAt(gray, width, rows, x0 + i, y))
  }

  lemma PushLaplacian(gray: seq<real>, width: nat, rows: nat, y: nat, x0: nat, x: nat)
    requires HasRows(gray, width, rows) && 0 < x0 <= x < width - 1 && 0 < y < rows - 1
    ensures LaplacianRow(gray, width, rows, y, x0, x + 1) ==
            LaplacianRow(gray, width, rows, y, x0, x) + [LaplacianAt(gray, width, rows, x, y)]
  {
  }

  /** The Laplacian of the region's inner rows above row `y1`, row after row. */
  function Laplacians(gray: seq<real>, width: nat, region: FaceRegion, y1: nat): (values: seq<real>)
    requires Fits(gray, width, region) && region.Width() >= 3 && region.Height() >= 3
    requires region.yStart < y1 < region.yEnd
    ensures |values| == (y1 - region.yStart - 1) * (region.Width() - 2)
  {
    if y1 == region.yStart + 1 then []
    else
      OneMoreRow(y1 - region.yStart - 2, region.Width() - 2);
      Laplacians(gray, width, region, y1 - 1)
      + LaplacianRow(gray, width, region.yEnd, y1 - 1, region.xStart + 1, region.xEnd - 1)
  }

  lemma OneMoreRow(rows: int, width: int)
    ensures (rows + 1) * width == rows * width + width
  {
  }

  function Mean(values: seq<real>): real
    requires values != []
  {
    Sum(values) / |values| as real
  }

  function SquaredDeltas(values: seq<real>, mean: real): seq<real> {
    Map((value: real) => (value - mean) * (value - mean), values)
  }

  function Variance(values: seq<real>): real {
    if values == [] then 0.0 else Mean(SquaredDeltas(values, Mean(values)))
  }

  function SharpnessOf(laplacians: seq<real>): real {
    Clamp(Variance(laplacians) / 350.0, 0.0, 1.0)
  }

  /** The sharpness of a region, unless it is too small to have inner pixels. */
  function BlurOf(gray: seq<real>, width: nat, region: FaceRegion): Option<real>
    requires region.xEnd <= width
  {
    if region.Width() < 3 || region.Height() < 3 || !HasRows(gray, width, region.yEnd) then None
    else Some(SharpnessOf(Laplacians(gray, width, region, region.yEnd - 1)))
  }

  function WholeFrame(width: nat, height: nat): FaceRegion {
    FaceRegion(0, 0, width, height)
  }

  function OrElse(score: Option<real>, fallback: real): real {
    match score
    case Some(s) => s
    case None => fallback
  }

  /** The loop over a whole frame computes the region score of the full frame. */
  method ScoreBlurValues(gray: seq<real>, width: nat, height: nat) returns (score: real)
    ensures score == OrElse(BlurOf(gray, width, WholeFrame(width, height)), 0.0)
  {
    hide LaplacianAt, LaplacianRow, Variance;
    if width < 3 || height < 3 || |gray| < width * height {
      return 0.0;
    }
    var laplacianValues := [];
    ghost var region := WholeFrame(width, height);
    for y := 1 to height - 1
      invariant laplacianValues == Laplacians(gray, width, region, y)
    {
      ghost var above := laplacianValues;
      for x := 1 to width - 1
        invariant laplacianValues == above + LaplacianRow(gray, width, height, y, 1, x)
      {
        LaplacianByIndex(gray, width, height, x, y);
        var center := gray[y * width + x] * 4.0;
        var neighbors := gray[(y - 1) * width + x] + gray[(y + 1) * width + x]
                         + gray[y * width + x - 1] + gray[y * width + x + 1];
        laplacianValues := laplacianValues + [center - neighbors];
        PushLaplacian(gray, width, height, y, 1, x);
      }
    }
    score := Clamp(Variance(laplacianValues) / 350.0, 0.0, 1.0);
  }

  method ScoreBlurRegion(gray: seq<real>, frameWidth: nat, region: FaceRegion) returns (score: Option<real>)
    requires region.xEnd <= frameWidth
    ensures score == BlurOf(gray, frameWidth, region)
  {
    hide LaplacianAt, LaplacianRow, Variance;
    if region.Width() < 3 || region.Height() < 3 || |gray| < frameWidth * region.yEnd {
      return None;
    }
    var laplacianValues := [];
    for y := region.yStart + 1 to region.yEnd - 1
      invariant laplacianValues == Laplacians(gray, frameWidth, region, y)
    {
      ghost var above := laplacianValues;
      for x := region.xStart + 1 to region.xEnd - 1
        invariant laplacianValues ==
                  above + LaplacianRow(gray, frameWidth, region.yEnd, y, region.xStart + 1, x)
      {
        LaplacianByIndex(gray, frameWidth, region.yEnd, x, y);
        var center := gray[y * frameWidth + x] * 4.0;
        var neighbors := gray[(y - 1) * frameWidth + x] + gray[(y + 1) * frameWidth + x]
                         + gray[y * frameWidth + x - 1] + gray[y * frameWidth + x + 1];
        laplacianValues := laplacianValues + [center - neighbors];
        PushLaplacian(gray, frameWidth, region.yEnd, y, region.xStart + 1, x);
      }
    }
    score := Some(Clamp(Variance(laplacianValues) / 350.0, 0.0, 1.0));
  }

  // ----- what the sharpness score means -----

  lemma {:induction false} SumOfNonNegatives(values: seq<real>)
    requires forall i :: 0 <= i < |values| ==> values[i] >= 0.0
    ensures Sum(values) >= 0.0
    ensures Sum(values) == 0.0 <==> forall i :: 0 <= i < |values| ==> values[i] == 0.0
  {
    if values != [] {
      var last := |values| - 1;
      SumOfNonNegatives(values[..last]);
      assert forall i :: 0 <= i < last ==> values[..last][i] == values[i];
      if Sum(values[..last]) == 0.0 && values[last] == 0.0 {
        assert forall i :: 0 <= i < |values| ==> values[i] == 0.0;
      }
    }
  }

  lemma {:induction false} SumOfEqual(values: seq<real>, value: real)
    requires forall i :: 0 <= i < |values| ==> values[i] == value
    ensures Sum(values) == value * |values| as real
  {
    if values != [] {
      SumOfEqual(values[..|values| - 1], value);
    }
  }

  lemma QuotientIsZero(x: real, d: real)
    requires d > 0.0 && x >= 0.0
    ensures x / d >= 0.0 && (x / d == 0.0 <==> x == 0.0)
  {
    var q := x / d;
    assert q * d == x;
    if q < 0.0 {
      PositiveProduct(-q, d, -x);
    }
  }

  /** The squared deltas are not negative, and add up to zero exactly when every value is the mean. */
  lemma DeltasVanishAtTheMean(values: seq<real>, mean: real)
    ensures Sum(SquaredDeltas(values, mean)) >= 0.0
    ensures Sum(SquaredDeltas(values, mean)) == 0.0 <==> forall i :: 0 <= i < |values| ==> values[i] == mean
  {
    var deltas := SquaredDeltas(values, mean);
    forall i | 0 <= i < |values| ensures deltas[i] >= 0.0 && (deltas[i] == 0.0 <==> values[i] == mean) {
      SquareIsNonNegative(values[i] - mean, deltas[i]);
    }
    SumOfNonNegatives(deltas);
  }

  lemma VarianceVanishesAtTheMean(values: seq<real>)
    requires values != []
    ensures Variance(values) >= 0.0
    ensures Variance(values) == 0.0 <==> forall i :: 0 <= i < |values| ==> values[i] == Mean(values)
  {
    DeltasVanishAtTheMean(values, Mean(values));
    QuotientIsZero(Sum(SquaredDeltas(values, Mean(values))), |values| as real);
  }

  /** The variance is zero exactly when all the values are the same, and otherwise positive. */
  lemma VarianceIsZeroExactlyOnConstants(values: seq<real>)
    ensures Variance(values) >= 0.0
    ensures Variance(values) == 0.0 <==> forall i, j :: 0 <= i < |values| && 0 <= j < |values| ==> values[i] == values[j]
  {
    if values == [] {
      assert Variance(values) == 0.0;
    } else {
      hide Mean, Variance;
      VarianceVanishesAtTheMean(values);
      if forall i, j :: 0 <= i < |values| && 0 <= j < |values| ==> values[i] == values[j] {
        MeanOfConstants(values);
      }
    }
  }

  lemma MeanOfConstants(values: seq<real>)
    requires values != [] && forall i, j :: 0 <= i < |values| && 0 <= j < |values| ==> values[i] == values[j]
    ensures Mean(values) == values[0]
  {
    SumOfEqual(values, values[0]);
    MeanOfEqual(values[0], |values| as real, Sum(values));
  }

  lemma MeanOfEqual(value: real, n: real, sum: real)
    requires n > 0.0 && sum == value * n
    ensures sum / n == value
  {
    DivideBounds(sum, value, value, n);
  }

  /** `other` differs from `gray` by a plane: a brightness offset plus a linear gradient. */
  ghost predicate DiffersByPlane(gray: seq<real>, other: seq<real>, width: nat, rows: nat,
                                 offset: real, acrossX: real, acrossY: real)
    requires HasRows(gray, width, rows) && HasRows(other, width, rows)
  {
    forall x: nat, y: nat :: x < width && y < rows ==>
                               Pixel(other, width, rows, x, y) == Pixel(gray, width, rows, x, y) + Plane(offset, acrossX, acrossY, x, y)
  }

  function Plane(offset: real, acrossX: real, acrossY: real, x: nat, y: nat): real {
    offset + acrossX * x as real + acrossY * y as real
  }

  lemma LaplacianIgnoresPlane(gray: seq<real>, other: seq<real>, width: nat, rows: nat, x: nat, y: nat,
                              offset: real, acrossX: real, acrossY: real)
    requires HasRows(gray, width, rows) && HasRows(other, width, rows)
    requires 0 < x < width - 1 && 0 < y < rows - 1
    requires DiffersByPlane(gray, other, width, rows, offset, acrossX, acrossY)
    ensures LaplacianAt(other, width, rows, x, y) == LaplacianAt(gray, width, rows, x, y)
  {
    PlaneIsHarmonic(offset, acrossX, acrossY, x, y);
  }

  lemma PlaneIsHarmonic(offset: real, acrossX: real, acrossY: real, x: nat, y: nat)
    requires x > 0 && y > 0
    ensures Plane(offset, acrossX, acrossY, x, y) * 4.0 ==
            Plane(offset, acrossX, acrossY, x, y - 1) + Plane(offset, acrossX, acrossY, x, y + 1)
            + Plane(offset, acrossX, acrossY, x - 1, y) + Plane(offset, acrossX, acrossY, x + 1, y)
  {
    assert (x - 1) as real == x as real - 1.0 && (x + 1) as real == x as real + 1.0;
    assert (y - 1) as real == y as real - 1.0 && (y + 1) as real == y as real + 1.0;
  }

  lemma {:induction false} LaplaciansIgnorePlane(gray: seq<real>, other: seq<real>, width: nat, region: FaceRegion, y1: nat,
                                                 offset: real, acrossX: real, acrossY: real)
    requires Fits(gray, width, region) && Fits(other, width, region)
    requires region.Width() >= 3 && region.Height() >= 3 && region.yStart < y1 < region.yEnd
    requires DiffersByPlane(gray, other, width, region.yEnd, offset, acrossX, acrossY)
    ensures Laplacians(other, width, region, y1) == Laplacians(gray, width, region, y1)
  {
    if y1 > region.yStart + 1 {
      var y := y1 - 1;
      LaplaciansIgnorePlane(gray, other, width, region, y, offset, acrossX, acrossY);
      forall x | region.xStart + 1 <= x < region.xEnd - 1
        ensures LaplacianAt(other, width, region.yEnd, x, y) == LaplacianAt(gray, width, region.yEnd, x, y)
      {
        LaplacianIgnoresPlane(gray, other, width, region.yEnd, x, y, offset, acrossX, acrossY);
      }
      assert LaplacianRow(other, width, region.yEnd, y, region.xStart + 1, region.xEnd - 1) ==
             LaplacianRow(gray, width, region.yEnd, y, region.xStart + 1, region.xEnd - 1);
    }
  }

  /** Brightness and even gradients of the lighting never change the sharpness score. */
  lemma BlurIgnoresLighting(gray: seq<real>, other: seq<real>, width: nat, region: FaceRegion,
                            offset: real, acrossX: real, acrossY: real)
    requires Fits(gray, width, region) && Fits(other, width, region)
    requires DiffersByPlane(gray, other, width, region.yEnd, offset, acrossX, acrossY)
    ensures BlurOf(other, width, region) == BlurOf(gray, width, region)
  {
    if region.Width() >= 3 && region.Height() >= 3 {
      LaplaciansIgnorePlane(gray, other, width, region, region.yEnd - 1, offset, acrossX, acrossY);
    }
  }

  lemma {:induction false} LaplaciansOfFlat(gray: seq<real>, width: nat, region: FaceRegion, y1: nat, value: real)
    requires Fits(gray, width, region)
    requires region.Width() >= 3 && region.Height() >= 3 && region.yStart < y1 < region.yEnd
    requires forall x: nat, y: nat :: region.xStart <= x < region.xEnd && region.yStart <= y < region.yEnd ==>
                                        Pixel(gray, width, region.yEnd, x, y) == value
    ensures forall v :: v in Laplacians(gray, width, region, y1) ==> v == 0.0
  {
    if y1 > region.yStart + 1 {
      var y := y1 - 1;
      LaplaciansOfFlat(gray, width, region, y, value);
      forall x | region.xStart + 1 <= x < region.xEnd - 1
        ensures LaplacianAt(gray, width, region.yEnd, x, y) == 0.0
      {
        assert value * 4.0 - (value + value + value + value) == 0.0;
      }
    }
  }

  /** A region of one gray value, whatever surrounds it, has no sharpness at all. */
  lemma FlatRegionScoresZero(gray: seq<real>, width: nat, region: FaceRegion, value: real)
    requires Fits(gray, width, region) && region.Width() >= 3 && region.Height() >= 3
    requires forall x: nat, y: nat :: region.xStart <= x < region.xEnd && region.yStart <= y < region.yEnd ==>
                                        Pixel(gray, width, region.yEnd, x, y) == value
    ensures BlurOf(gray, width, region) == Some(0.0)
  {
    var values := Laplacians(gray, width, region, region.yEnd - 1);
    LaplaciansOfFlat(gray, width, region, region.yEnd - 1, value);
    forall i, j | 0 <= i < |values| && 0 <= j < |values| ensures values[i] == values[j] {
      assert values[i] in values && values[j] in values;
    }
    VarianceIsZeroExactlyOnConstants(values);
  }

  // ----- lighting -----

  predicate Saturated(value: real) {
    value < 8.0 || value > 247.0
  }

  function IlluminationOf(gray: seq<real>): (score: Option<real>)
    ensures score.None? <==> gray == []
    ensures score.Some? ==> 0.0 <= score.value <= 1.0
  {
    if gray == [] then None
    else
      var meanScore := 1.0 - Clamp(Abs(Mean(gray) - 128.0) / 128.0, 0.0, 1.0);
      var saturatedRatio := |Filter(Saturated, gray)| as real / |gray| as real;
      var saturationScore := 1.0 - Clamp(saturatedRatio / 0.25, 0.0, 1.0);
      Some(Clamp(meanScore * 0.65 + saturationScore * 0.35, 0.0, 1.0))
  }

  /** The gray values of the region's rows above row `y1`, row after row. */
  function RegionRows(gray: seq<real>, width: nat, region: FaceRegion, y1: nat): seq<real>
    requires Fits(gray, width, region) && region.xStart <= region.xEnd && region.yStart <= y1 <= region.yEnd
  {
    if y1 == region.yStart then []
    else RegionRows(gray, width, region, y1 - 1) + RowPart(gray, width, region.yEnd, y1 - 1, region.xStart, region.xEnd)
  }

  function RowPart(gray: seq<real>, width: nat, rows: nat, y: nat, x0: nat, x1: nat): (values: seq<real>)
    requires HasRows(gray, width, rows) && x0 <= x1 <= width && y < rows
    ensures |values| == x1 - x0
  {
    seq(x1 - x0, i requires 0 <= i < x1 - x0 => Pixel(gray, width, rows, x0 + i, y))
  }

  // ----- the sample as a whole -----

  const FACE_REGION_PADDING: real := 0.20

  function WholeFrameBlur(frame: VideoFrame): real {
    if frame.width < 3 || frame.height < 3 || frame.data == [] then 0.0
    else OrElse(BlurOf(GrayscaleValues(frame), frame.width, WholeFrame(frame.width, frame.height)), 0.0)
  }

  function FaceRegionBlur(frame: VideoFrame, face: DetectedFace): real {
    match FaceRegionOf(frame, face, FACE_REGION_PADDING)
    case None => WholeFrameBlur(frame)
    case Some(region) =>
      RegionIsTheTouchedPart(frame, PaddedEdges(face.bounds, FACE_REGION_PADDING));
      OrElse(BlurOf(GrayscaleValues(frame), frame.width, region), WholeFrameBlur(frame))
  }

  function WholeFrameIllumination(frame: VideoFrame): real {
    if frame.data == [] then 0.0 else OrElse(IlluminationOf(GrayscaleValues(frame)), 0.0)
  }

  function FaceRegionIllumination(frame: VideoFrame, face: DetectedFace): real
    requires frame.Valid()
  {
    match FaceRegionOf(frame, face, FACE_REGION_PADDING)
    case None => WholeFrameIllumination(frame)
    case Some(region) =>
      RegionFitsFrame(frame, face, region);
      OrElse(IlluminationOf(RegionRows(GrayscaleValues(frame), frame.width, region, region.yEnd)),
             WholeFrameIllumination(frame))
  }

  /** In a valid frame every pixel of the face region has a gray value. */
  lemma RegionFitsFrame(frame: VideoFrame, face: DetectedFace, region: FaceRegion)
    requires frame.Valid() && FaceRegionOf(frame, face, FACE_REGION_PADDING) == Some(region)
    ensures Fits(GrayscaleValues(frame), frame.width, region)
    ensures region.xStart < region.xEnd && region.yStart < region.yEnd
  {
    RegionIsTheTouchedPart(frame, PaddedEdges(face.bounds, FACE_REGION_PADDING));
    GrayscaleCoversFrame(frame);
    ProductGrowsWithRows(frame.width, region.yEnd, frame.height);
  }

  lemma ProductGrowsWithRows(width: nat, rows: nat, more: nat)
    requires rows <= more
    ensures width * rows <= width * more
  {
    assert width * more == width * rows + width * (more - rows);
  }

  method CollectRegion(gray: seq<real>, frameWidth: nat, region: FaceRegion) returns (regionValues: seq<real>)
    requires Fits(gray, frameWidth, region) && region.xStart <= region.xEnd && region.yStart <= region.yEnd
    ensures regionValues == RegionRows(gray, frameWidth, region, region.yEnd)
  {
    regionValues := [];
    for y := region.yStart to region.yEnd
      invariant regionValues == RegionRows(gray, frameWidth, region, y)
    {
      var row := y * frameWidth;
      ghost var above := regionValues;
      for x := region.xStart to region.xEnd
        invariant regionValues == above + RowPart(gray, frameWidth, region.yEnd, y, region.xStart, x)
      {
        PixelInRange(frameWidth, region.yEnd, x, y);
        assert gray[row + x] == Pixel(gray, frameWidth, region.yEnd, x, y);
        regionValues := regionValues + [gray[row + x]];
        assert RowPart(gray, frameWidth, region.yEnd, y, region.xStart, x + 1) ==
               RowPart(gray, frameWidth, region.yEnd, y, region.xStart, x) + [gray[row + x]];
      }
    }
  }

  /** Scores the lighting of the face region, reading only gray values that exist. */
  method ScoreFaceRegionIllumination(frame: VideoFrame, face: DetectedFace) returns (score: real)
    requires frame.Valid()
    ensures score == FaceRegionIllumination(frame, face)
  {
    match FaceRegionOf(frame, face, FACE_REGION_PADDING)
    case None =>
      score := WholeFrameIllumination(frame);
    case Some(region) =>
      RegionFitsFrame(frame, face, region);
      var regionValues := CollectRegion(GrayscaleValues(frame), frame.width, region);
      score := OrElse(IlluminationOf(regionValues), WholeFrameIllumination(frame));
  }

  method ScoreFaceRegionBlur(frame: VideoFrame, face: DetectedFace) returns (score: real)
    ensures score == FaceRegionBlur(frame, face)
  {
    RegionIsTheTouchedPart(frame, PaddedEdges(face.bounds, FACE_REGION_PADDING));
    var wholeFrame := 0.0;
    var gray := GrayscaleValues(frame);
    if frame.width >= 3 && frame.height >= 3 && frame.data != [] {
      wholeFrame := ScoreBlurValues(gray, frame.width, frame.height);
    }
    match FaceRegionOf(frame, face, FACE_REGION_PADDING)
    case None =>
      score := wholeFrame;
    case Some(region) =>
      var regionScore := ScoreBlurRegion(gray, frame.width, region);
      score := OrElse(regionScore, wholeFrame);
  }

  /** The part of the picture that the face box takes. */
  function FaceShare(width: u32, height: u32, bounds: FaceBox): real
    requires width > 0 && height > 0
  {
    bounds.width * bounds.height / (width as real * height as real)
  }

  function FaceSizeScore(frame: VideoFrame, face: DetectedFace): (score: real)
    ensures 0.0 <= score <= 1.0
  {
    if frame.width == 0 || frame.height == 0 then 0.0
    else
      var ratio := Clamp(FaceShare(frame.width, frame.height, face.bounds), 0.0, 1.0);
      if ratio < 0.02 then ratio / 0.02 * 0.3
      else if ratio < 0.08 then 0.3 + (ratio - 0.02) / 0.06 * 0.5
      else if ratio <= 0.45 then 1.0
      else Clamp(1.0 - (ratio - 0.45) / 0.35, 0.0, 1.0)
  }

  function AlignmentScore(face: DetectedFace): (score: real)
    ensures 0.0 <= score <= 1.0
  {
    if |face.landmarks| < 5 then 0.0
    else if face.confidence < 0.5 then 0.2
    else Clamp(face.confidence, 0.0, 1.0)
  }

  // ----- the weighted score -----

  type Weighted = seq<(real, real)>

  function WeightOf(v: (real, real)): real {
    v.1
  }

  function ShareOf(v: (real, real)): real {
    Clamp(v.0, 0.0, 1.0) * v.1
  }

  function TotalWeight(values: Weighted): real {
    Sum(Map(WeightOf, values))
  }

  function WeightedSum(values: Weighted): real {
    Sum(Map(ShareOf, values))
  }

  const F32_EPSILON: real := 0.00000011920928955078125

  function WeightedAverage(values: Weighted): real {
    if TotalWeight(values) <= F32_EPSILON then 0.0 else WeightedSum(values) / TotalWeight(values)
  }

  /** `better` is `values` with none of its values lowered and no weight changed. */
  ghost predicate NoWorse(values: Weighted, better: Weighted) {
    && |better| == |values|
    && forall i :: 0 <= i < |values| ==> better[i].1 == values[i].1 >= 0.0 && values[i].0 <= better[i].0
  }

  lemma {:induction false} SumIsMonotone(values: seq<real>, larger: seq<real>)
    requires |larger| == |values| && forall i :: 0 <= i < |values| ==> values[i] <= larger[i]
    ensures Sum(values) <= Sum(larger)
  {
    if values != [] {
      SumIsMonotone(values[..|values| - 1], larger[..|values| - 1]);
    }
  }

  lemma ProductIsMonotone(a: real, b: real, w: real)
    requires a <= b && w >= 0.0
    ensures a * w <= b * w
  {
    assert (b - a) * w >= 0.0;
  }

  lemma ShareIsBounded(share: real, w: real)
    requires 0.0 <= share <= 1.0 && w >= 0.0
    ensures 0.0 <= share * w <= w
  {
    ProductIsMonotone(0.0, share, w);
    assert w - share * w == (1.0 - share) * w;
    ProductIsMonotone(0.0, 1.0 - share, w);
  }

  lemma QuotientIsMonotone(a: real, b: real, d: real)
    requires a <= b && d > 0.0
    ensures a / d <= b / d
  {
    DivideBounds(a, a / d, b / d, d);
  }

  /** A share of a weight, a larger share, and the whole weight. */
  lemma SharesInOrder(worse: real, improved: real, w: real, low: real, high: real)
    requires 0.0 <= worse <= improved <= 1.0 && w >= 0.0
    requires low == worse * w && high == improved * w
    ensures 0.0 <= low <= high <= w
  {
    ShareIsBounded(worse, w);
    ShareIsBounded(improved, w);
    ProductIsMonotone(worse, improved, w);
  }

  lemma EntryInOrder(v: (real, real), better: (real, real))
    requires v.1 >= 0.0 && better.1 == v.1 && better.0 >= v.0
    ensures 0.0 <= ShareOf(v) <= ShareOf(better) <= WeightOf(v) == WeightOf(better)
  {
    SharesInOrder(Clamp(v.0, 0.0, 1.0), Clamp(better.0, 0.0, 1.0), v.1, ShareOf(v), ShareOf(better));
  }

  lemma WeightedSumsInOrder(values: Weighted, better: Weighted)
    requires NoWorse(values, better)
    ensures TotalWeight(values) == TotalWeight(better)
    ensures 0.0 <= WeightedSum(values) <= WeightedSum(better) <= TotalWeight(values)
  {
    hide ShareOf, WeightOf;
    var weights, low, high := Map(WeightOf, values), Map(ShareOf, values), Map(ShareOf, better);
    forall i | 0 <= i < |values|
      ensures 0.0 <= low[i] <= high[i] <= weights[i] && weights[i] == Map(WeightOf, better)[i]
    {
      EntryInOrder(values[i], better[i]);
    }
    assert weights == Map(WeightOf, better);
    SumOfNonNegatives(low);
    SumIsMonotone(low, high);
    SumIsMonotone(high, weights);
  }

  /** Raising a value never lowers a weighted average, which never leaves 0..1. */
  lemma WeightedAverageIsMonotone(values: Weighted, better: Weighted)
    requires NoWorse(values, better)
    ensures 0.0 <= WeightedAverage(values) <= WeightedAverage(better) <= 1.0
  {
    WeightedSumsInOrder(values, better);
    var total, low, high := TotalWeight(values), WeightedSum(values), WeightedSum(better);
    if total > F32_EPSILON {
      DivideBounds(low, 0.0, 1.0, total);
      DivideBounds(high, 0.0, 1.0, total);
      QuotientIsMonotone(low, high, total);
    }
  }

  function Components(size: real, blur: real, illumination: real, alignment: real, poseFit: real, embedding: real): Weighted {
    [(size, 0.18), (blur, 0.15), (illumination, 0.17), (alignment, 0.15), (poseFit, 0.20), (embedding, 0.15)]
  }

  function EmbeddingComponent(consistency: Option<real>): real {
    match consistency
    case Some(score) => Clamp(score, 0.0, 1.0)
    case None => 1.0
  }

  /** The scores of a sample. */
  function QualityOf(frame: VideoFrame, face: DetectedFace, target: FacePoseTarget,
                     pose: Option<FacePoseEstimate>, consistency: Option<real>): QualityScores
    requires frame.Valid()
  {
    var size := FaceSizeScore(frame, face);
    var blur := FaceRegionBlur(frame, face);
    var illumination := FaceRegionIllumination(frame, face);
    var alignment := AlignmentScore(face);
    var poseFit := PoseFitScore(target, pose);
    QualityScores(
      WeightedAverage(Components(size, blur, illumination, alignment, poseFit, EmbeddingComponent(consistency))),
      blur, illumination, size, alignment, poseFit, consistency)
  }

  method ScoreFaceSample(frame: VideoFrame, face: DetectedFace, target: FacePoseTarget,
                         pose: Option<FacePoseEstimate>, consistency: Option<real>)
    returns (scores: QualityScores)
    requires frame.Valid()
    ensures scores == QualityOf(frame, face, target, pose, consistency)
  {
    var faceSizeScore := FaceSizeScore(frame, face);
    var blurScore := ScoreFaceRegionBlur(frame, face);
    var illuminationScore := ScoreFaceRegionIllumination(frame, face);
    var alignmentScore := AlignmentScore(face);
    var poseFitScore := PoseFitScore(target, pose);
    var qualityScore := WeightedAverage(
      Components(faceSizeScore, blurScore, illuminationScore, alignmentScore, poseFitScore, EmbeddingComponent(consistency)));
    scores := QualityScores(qualityScore, blurScore, illuminationScore, faceSizeScore, alignmentScore, poseFitScore, consistency);
  }

  predicate InUnitRange(score: real) {
    0.0 <= score <= 1.0
  }

  /** Every score lies in 0..1. */
  lemma QualityIsInUnitRange(frame: VideoFrame, face: DetectedFace, target: FacePoseTarget,
                             pose: Option<FacePoseEstimate>, consistency: Option<real>)
    requires frame.Valid()
    ensures var q := QualityOf(frame, face, target, pose, consistency);
            && InUnitRange(q.qualityScore) && InUnitRange(q.blurScore) && InUnitRange(q.illuminationScore)
            && InUnitRange(q.faceSizeScore) && InUnitRange(q.alignmentScore) && InUnitRange(q.poseFitScore)
  {
    var q := QualityOf(frame, face, target, pose, consistency);
    var values := Components(q.faceSizeScore, q.blurScore, q.illuminationScore, q.alignmentScore, q.poseFitScore,
                             EmbeddingComponent(consistency));
    WeightedAverageIsMonotone(values, values);
  }

  /** A better consistency score never lowers the quality, and no score at all counts as the best. */
  lemma QualityGrowsWithConsistency(frame: VideoFrame, face: DetectedFace, target: FacePoseTarget,
                                    pose: Option<FacePoseEstimate>, lower: Option<real>, higher: Option<real>)
    requires frame.Valid()
    requires higher.None? || (lower.Some? && lower.value <= higher.value)
    ensures QualityOf(frame, face, target, pose, lower).qualityScore <=
            QualityOf(frame, face, target, pose, higher).qualityScore
  {
    var q := QualityOf(frame, face, target, pose, lower);
    WeightedAverageIsMonotone(
      Components(q.faceSizeScore, q.blurScore, q.illuminationScore, q.alignmentScore, q.poseFitScore, EmbeddingComponent(lower)),
      Components(q.faceSizeScore, q.blurScore, q.illuminationScore, q.alignmentScore, q.poseFitScore, EmbeddingComponent(higher)));
  }

  // ----- the policy -----

  datatype FaceQualityPolicy = FaceQualityPolicy(
    minQualityScore: real,
    minFaceSizeScore: real,
    minIlluminationScore: real,
    minBlurScore: real,
    minPoseFitScore: real)

  const DEFAULT_QUALITY_POLICY: FaceQualityPolicy := FaceQualityPolicy(0.55, 0.30, 0.35, 0.20, 0.25)

  /** The sample reaches every floor of the policy. */
  predicate MeetsFloors(quality: QualityScores, policy: FaceQualityPolicy) {
    && quality.faceSizeScore >= policy.minFaceSizeScore
    && quality.blurScore >= policy.minBlurScore
    && quality.illuminationScore >= policy.minIlluminationScore
    && quality.poseFitScore >= policy.minPoseFitScore
    && quality.alignmentScore > 0.0
    && quality.qualityScore >= policy.minQualityScore
  }

  function RejectReasonForQuality(quality: QualityScores, policy: FaceQualityPolicy)
    : (reason: Option<FaceSampleRejectReason>)
    ensures reason.None? <==> MeetsFloors(quality, policy)
  {
    if quality.faceSizeScore < policy.minFaceSizeScore then Some(FaceTooSmall)
    else if quality.blurScore < policy.minBlurScore then Some(BlurTooHigh)
    else if quality.illuminationScore < policy.minIlluminationScore then Some(UnderExposed)
    else if quality.poseFitScore < policy.minPoseFitScore then Some(PoseOutOfExpectedRange)
    else if quality.alignmentScore <= 0.0 then Some(AlignmentFailed)
    else if quality.qualityScore < policy.minQualityScore then Some(PoseOutOfExpectedRange)
    else None
  }
}
