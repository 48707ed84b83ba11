/** The liveness model's crop around a face, and the integer region cut from the image. */
module LivenessCrop {
  import opened RustInts
  import opened Wrappers
  import opened RealMath
  import opened FaceEngine
  import opened Quality

  datatype ImageRect = ImageRect(x: real, y: real, width: real, height: real)

  /** On one axis: where the crop starts and how long it is. */
  datatype Span = Span(near: real, length: real)

  function ScaledLength(length: real, scale: real): real {
    MaxReal(length * scale, 1.0)
  }

  function CropSpan(near: real, length: real, scale: real, limit: nat): (span: Span)
    requires limit >= 1
    ensures 0.0 <= span.near && 1.0 <= span.length && span.near + span.length <= limit as real
  {
    var cropLength := ScaledLength(length, scale);
    var center := near + length / 2.0;
    var start := Clamp(center - cropLength / 2.0, 0.0, (limit - 1) as real);
    var end := Clamp(center + cropLength / 2.0, start + 1.0, limit as real);
    Span(start, end - start)
  }

  /** The crop rectangle; `clamp` panics unless its bounds are ordered, as they are here. */
  function ScaledFaceCropRect(frame: VideoFrame, face: DetectedFace, scale: real): (rect: ImageRect)
    requires frame.width >= 1 && frame.height >= 1
    ensures 0.0 <= rect.x && 1.0 <= rect.width && rect.x + rect.width <= frame.width as real
    ensures 0.0 <= rect.y && 1.0 <= rect.height && rect.y + rect.height <= frame.height as real
  {
    var horizontal := CropSpan(face.bounds.x, face.bounds.width, scale, frame.width);
    var vertical := CropSpan(face.bounds.y, face.bounds.height, scale, frame.height);
    ImageRect(horizontal.near, vertical.near, horizontal.length, vertical.length)
  }

  /** The part of the scaled box inside the frame is never cut away, and nothing else is kept but one pixel. */
  lemma CropKeepsTheVisiblePart(near: real, length: real, scale: real, limit: nat, p: real)
    requires limit >= 1
    ensures var span := CropSpan(near, length, scale, limit);
            var half := ScaledLength(length, scale) / 2.0;
            var center := near + length / 2.0;
            && (0.0 <= p <= limit as real && center - half <= p <= center + half ==>
                  span.near <= p <= span.near + span.length)
            && (span.near <= p <= span.near + span.length && span.length > 1.0 ==>
                  center - half <= p <= center + half)
  {
  }

  /** On one axis: the point lies in the box scaled about its centre, which is at least one pixel long. */
  predicate InScaledSpan(near: real, length: real, scale: real, p: real) {
    var fromCenter := Abs(p - (near + length / 2.0));
    fromCenter <= 0.5 || 2.0 * fromCenter <= length * scale
  }

  predicate InScaledBox(face: DetectedFace, scale: real, x: real, y: real) {
    InScaledSpan(face.bounds.x, face.bounds.width, scale, x) && InScaledSpan(face.bounds.y, face.bounds.height, scale, y)
  }

  predicate InRect(rect: ImageRect, x: real, y: real) {
    rect.x <= x <= rect.x + rect.width && rect.y <= y <= rect.y + rect.height
  }

  lemma SpanIsTheVisiblePart(near: real, length: real, scale: real, limit: nat, p: real)
    requires limit >= 1 && 0.0 <= p <= limit as real
    ensures var span := CropSpan(near, length, scale, limit);
            && (InScaledSpan(near, length, scale, p) ==> span.near <= p <= span.near + span.length)
            && (span.length > 1.0 && span.near <= p <= span.near + span.length ==> InScaledSpan(near, length, scale, p))
  {
    CropKeepsTheVisiblePart(near, length, scale, limit, p);
  }

  /**
   * The rectangle shows every point of the frame that lies in the scaled box and, unless the
   * frame leaves it just one pixel on an axis, no other.
   */
  lemma CropIsTheVisibleBox(frame: VideoFrame, face: DetectedFace, scale: real, x: real, y: real)
    requires frame.width >= 1 && frame.height >= 1 && 0.0 <= x <= frame.width as real && 0.0 <= y <= frame.height as real
    ensures var rect := ScaledFaceCropRect(frame, face, scale);
            && (InScaledBox(face, scale, x, y) ==> InRect(rect, x, y))
            && (rect.width > 1.0 && rect.height > 1.0 && InRect(rect, x, y) ==> InScaledBox(face, scale, x, y))
  {
    hide CropSpan, InScaledSpan;
    SpanIsTheVisiblePart(face.bounds.x, face.bounds.width, scale, frame.width, x);
    SpanIsTheVisiblePart(face.bounds.y, face.bounds.height, scale, frame.height, y);
  }

  /** Both ends of the scaled span are in the frame exactly when the crop has its length and its centre. */
  lemma WholeSpan(near: real, length: real, scale: real, limit: nat)
    requires limit >= 1
    ensures var span, scaled, center := CropSpan(near, length, scale, limit), ScaledLength(length, scale), near + length / 2.0;
            (0.0 <= center - scaled / 2.0 && center + scaled / 2.0 <= limit as real) <==>
            (span.length == scaled && span.near + span.length / 2.0 == center)
  {
  }

  /** The crop has the size of the scaled box and its centre exactly when that box is all inside the frame. */
  lemma WhenTheCropIsWhole(frame: VideoFrame, face: DetectedFace, scale: real)
    requires frame.width >= 1 && frame.height >= 1
    ensures var box, rect := face.bounds, ScaledFaceCropRect(frame, face, scale);
            var width, height := ScaledLength(box.width, scale), ScaledLength(box.height, scale);
            var centerX, centerY := box.x + box.width / 2.0, box.y + box.height / 2.0;
            (rect.width == width && rect.height == height
             && rect.x + rect.width / 2.0 == centerX && rect.y + rect.height / 2.0 == centerY) <==>
            (0.0 <= centerX - width / 2.0 && centerX + width / 2.0 <= frame.width as real
             && 0.0 <= centerY - height / 2.0 && centerY + height / 2.0 <= frame.height as real)
  {
    hide CropSpan, ScaledLength;
    WholeSpan(face.bounds.x, face.bounds.width, scale, frame.width);
    WholeSpan(face.bounds.y, face.bounds.height, scale, frame.height);
  }

  // ----- the rounded region -----

  datatype Roi = Roi(x: int, y: int, width: int, height: int)

  function RoundedRoi(rect: ImageRect): Roi {
    Roi(ToInt(MaxReal(Round(rect.x) as real, 0.0)), ToInt(MaxReal(Round(rect.y) as real, 0.0)),
        ToInt(MaxReal(Round(rect.width) as real, 1.0)), ToInt(MaxReal(Round(rect.height) as real, 1.0)))
  }

  /** A cast to a signed integer truncates. */
  function ToInt(x: real): int {
    if x >= 0.0 then x.Floor else -((-x).Floor)
  }

  predicate Inside(near: int, length: int, limit: nat) {
    0 <= near && 1 <= length && near + length <= limit
  }

  /** The crop touches the far edge and starts exactly halfway between two pixels. */
  predicate HalfPixelAtFarEdge(near: real, length: real, limit: nat) {
    near + length == limit as real && near - near.Floor as real == 0.5
  }

  /** On one axis the rounded crop leaves the image in one case only, and then by one pixel. */
  lemma RoundedSpanStaysInside(near: real, length: real, limit: nat)
    requires 0.0 <= near && 1.0 <= length && near + length <= limit as real
    ensures var n, l := Round(near), Round(length);
            && 0 <= n && 1 <= l
            && (n + l <= limit <==> !HalfPixelAtFarEdge(near, length, limit))
            && n + l <= limit + 1
  {
    if near + length == limit as real {
      ComplementFraction(near, length, limit);
    }
  }

  lemma ComplementFraction(near: real, length: real, limit: nat)
    requires 0.0 <= near && 1.0 <= length && near + length == limit as real
    ensures var f := near - near.Floor as real;
            Round(near) + Round(length) == if f == 0.5 then limit + 1 else limit
  {
    var f, whole := near - near.Floor as real, near.Floor;
    assert length == (limit - whole) as real - f;
    if f < 0.5 {
      assert Round(near) == whole;
      assert Round(length) == limit - whole;
    } else {
      assert Round(near) == whole + 1;
      assert Round(length) == if f == 0.5 then limit - whole else limit - whole - 1;
    }
  }

  /** Cutting the region out of the image succeeds exactly when it lies inside the image. */
  method BuildCropRegion(frame: VideoFrame, face: DetectedFace, cropScale: real) returns (r: Option<Roi>)
    ensures !frame.Valid() ==> r.None?
    ensures frame.Valid() ==>
              var rect := ScaledFaceCropRect(frame, face, cropScale);
              && (r.Some? <==> && !HalfPixelAtFarEdge(rect.x, rect.width, frame.width)
                               && !HalfPixelAtFarEdge(rect.y, rect.height, frame.height))
              && (r.Some? ==>
                    && Inside(r.value.x, r.value.width, frame.width)
                    && Inside(r.value.y, r.value.height, frame.height)
                    && r.value == Roi(Round(rect.x), Round(rect.y), Round(rect.width), Round(rect.height)))
  {
    if !frame.Valid() {
      return None;
    }
    var cropRect := ScaledFaceCropRect(frame, face, cropScale);
    RoundedSpanStaysInside(cropRect.x, cropRect.width, frame.width);
    RoundedSpanStaysInside(cropRect.y, cropRect.height, frame.height);
    var roi := RoundedRoi(cropRect);
    if Inside(roi.x, roi.width, frame.width) && Inside(roi.y, roi.height, frame.height) {
      return Some(roi);
    } else {
      return None;
    }
  }

  /** A face for which the crop does come out one pixel too wide. */
  lemma CropCanBeOnePixelTooWide()
    ensures var span := CropSpan(1.5, 2.5, 1.0, 4); Round(span.near) + Round(span.length) == 5
  {
    ComplementFraction(1.5, 2.5, 4);
  }
}
