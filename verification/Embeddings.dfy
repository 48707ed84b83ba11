/**
 * Cosine similarity of embeddings, over the reals.
 *
 * The square root is a parameter characterised by its square, because Dafny's reals have
 * no square root of their own.
 */
module Embeddings {
  import opened Wrappers
  import opened RealMath

  type Embedding = seq<real>
  type SquareRoot = real -> real

  ghost predicate IsSquareRoot(sqrt: SquareRoot) {
    forall x :: x >= 0.0 ==> sqrt(x) >= 0.0 && sqrt(x) * sqrt(x) == x
  }

  function Dot(left: Embedding, right: Embedding): real
    requires |left| == |right|
  {
    if left == [] then 0.0
    else
      var last := |left| - 1;
      Dot(left[..last], right[..last]) + left[last] * right[last]
  }

  function SquaredNorm(v: Embedding): real {
    Dot(v, v)
  }

  function Scale(factor: real, v: Embedding): (scaled: Embedding)
    ensures |scaled| == |v| && forall i :: 0 <= i < |v| ==> scaled[i] == factor * v[i]
  {
    seq(|v|, i requires 0 <= i < |v| => factor * v[i])
  }

  /** The similarity, or nothing when lengths differ or a vector is zero. */
  function Cosine(sqrt: SquareRoot, left: Embedding, right: Embedding): Option<real> {
    if |left| != |right| || SquaredNorm(left) == 0.0 || SquaredNorm(right) == 0.0 then None
    else Normalised(Dot(left, right), sqrt(SquaredNorm(left)), sqrt(SquaredNorm(right)))
  }

  /** A dot product divided by the two lengths. */
  function Normalised(dot: real, leftLength: real, rightLength: real): Option<real> {
    var denominator := leftLength * rightLength;
    if denominator == 0.0 then None else Some(dot / denominator)
  }

  // ----- Cauchy-Schwarz -----

  lemma {:induction false} NormIsNonNegative(v: Embedding)
    ensures SquaredNorm(v) >= 0.0
    ensures SquaredNorm(v) == 0.0 <==> forall i :: 0 <= i < |v| ==> v[i] == 0.0
  {
    if v != [] {
      var last := |v| - 1;
      NormIsNonNegative(v[..last]);
      SquareIsNonNegative(v[last], v[last] * v[last]);
      assert forall i :: 0 <= i < last ==> v[..last][i] == v[i];
      if forall i :: 0 <= i < last ==> v[i] == 0.0 {
        assert forall i :: 0 <= i < |v| ==> (v[i] == 0.0 <==> i < last || v[last] == 0.0);
      }
    }
  }

  /** The squared length of y * left - x * right, expanded, is not negative. */
  lemma {:induction false} CombinationIsNonNegative(left: Embedding, right: Embedding, x: real, y: real)
    requires |left| == |right|
    ensures SquaredNorm(left) * (y * y) - 2.0 * Dot(left, right) * (x * y) + SquaredNorm(right) * (x * x) >= 0.0
  {
    if left != [] {
      var last := |left| - 1;
      var a, b := left[last], right[last];
      CombinationIsNonNegative(left[..last], right[..last], x, y);
      SquareIsNonNegative(a * y - b * x, (a * y - b * x) * (a * y - b * x));
      ExpandCombination(SquaredNorm(left[..last]), Dot(left[..last], right[..last]), SquaredNorm(right[..last]), a, b, x, y);
    }
  }

  lemma ExpandCombination(l: real, d: real, r: real, a: real, b: real, x: real, y: real)
    ensures (l + a * a) * (y * y) - 2.0 * (d + a * b) * (x * y) + (r + b * b) * (x * x) ==
            (l * (y * y) - 2.0 * d * (x * y) + r * (x * x)) + (a * y - b * x) * (a * y - b * x)
  {
  }

  lemma {:induction false} CauchySchwarz(left: Embedding, right: Embedding)
    requires |left| == |right|
    ensures Dot(left, right) * Dot(left, right) <= SquaredNorm(left) * SquaredNorm(right)
  {
    if left != [] {
      var last := |left| - 1;
      var x, y := left[last], right[last];
      CauchySchwarz(left[..last], right[..last]);
      CombinationIsNonNegative(left[..last], right[..last], x, y);
      CauchySchwarzStep(SquaredNorm(left[..last]), Dot(left[..last], right[..last]), SquaredNorm(right[..last]), x, y,
                        SquaredNorm(left), Dot(left, right), SquaredNorm(right));
    }
  }

  lemma CauchySchwarzStep(l: real, d: real, r: real, x: real, y: real, l': real, d': real, r': real)
    requires d * d <= l * r
    requires l * (y * y) - 2.0 * d * (x * y) + r * (x * x) >= 0.0
    requires l' == l + x * x && d' == d + x * y && r' == r + y * y
    ensures d' * d' <= l' * r'
  {
    assert (l + x * x) * (r + y * y) - (d + x * y) * (d + x * y) ==
           (l * r - d * d) + (l * (y * y) - 2.0 * d * (x * y) + r * (x * x));
  }

  lemma BoundedBySquare(d: real, p: real)
    requires p >= 0.0 && d * d <= p * p
    ensures -p <= d <= p
  {
    if d > p {
      ProductGrows(p, d);
    }
    if d < -p {
      ProductGrows(p, -d);
    }
  }

  lemma ProductGrows(p: real, d: real)
    requires 0.0 <= p < d
    ensures d * d > p * p
  {
    PositiveProduct(d - p, d + p, d * d - p * p);
  }

  lemma SquareRootIsUnique(a: real, b: real)
    requires a >= 0.0 && b >= 0.0 && a * a == b * b
    ensures a == b
  {
    if a < b { ProductGrows(a, b); }
    if b < a { ProductGrows(b, a); }
  }

  lemma PositiveRoot(sqrt: SquareRoot, x: real)
    requires IsSquareRoot(sqrt) && x > 0.0
    ensures sqrt(x) > 0.0 && sqrt(x) * sqrt(x) == x
  {
  }

  lemma QuotientInUnitRange(d: real, l: real, r: real, a: real, b: real)
    requires a > 0.0 && b > 0.0 && a * a == l && b * b == r && d * d <= l * r
    ensures var c := Normalised(d, a, b); c.Some? && -1.0 <= c.value <= 1.0
  {
    var p := a * b;
    PositiveProduct(a, b, p);
    assert p * p == (a * a) * (b * b);
    BoundedBySquare(d, p);
    var q := d / p;
    assert q * p == d;
    if q > 1.0 {
      PositiveProduct(q - 1.0, p, d - p);
    }
    if q < -1.0 {
      PositiveProduct(-1.0 - q, p, -p - d);
    }
  }

  /** When there is a similarity at all, and that it lies in -1..1. */
  lemma CosineIsBounded(sqrt: SquareRoot, left: Embedding, right: Embedding)
    requires IsSquareRoot(sqrt)
    ensures Cosine(sqrt, left, right).Some? <==>
              |left| == |right| && SquaredNorm(left) != 0.0 && SquaredNorm(right) != 0.0
    ensures Cosine(sqrt, left, right).Some? <==>
              && |left| == |right|
              && (exists i :: 0 <= i < |left| && left[i] != 0.0)
              && (exists i :: 0 <= i < |right| && right[i] != 0.0)
    ensures var c := Cosine(sqrt, left, right); c.Some? ==> -1.0 <= c.value <= 1.0
  {
    NormIsNonNegative(left);
    NormIsNonNegative(right);
    var l, r := SquaredNorm(left), SquaredNorm(right);
    if |left| == |right| && l > 0.0 && r > 0.0 {
      PositiveRoot(sqrt, l);
      PositiveRoot(sqrt, r);
      CauchySchwarz(left, right);
      QuotientInUnitRange(Dot(left, right), l, r, sqrt(l), sqrt(r));
    }
  }

  // ----- symmetry, scaling, self-similarity -----

  lemma {:induction false} DotIsSymmetric(left: Embedding, right: Embedding)
    requires |left| == |right|
    ensures Dot(left, right) == Dot(right, left)
  {
    if left != [] {
      DotIsSymmetric(left[..|left| - 1], right[..|left| - 1]);
    }
  }

  lemma CosineIsSymmetric(sqrt: SquareRoot, left: Embedding, right: Embedding)
    ensures Cosine(sqrt, left, right) == Cosine(sqrt, right, left)
  {
    if |left| == |right| {
      DotIsSymmetric(left, right);
      var a, b := sqrt(SquaredNorm(left)), sqrt(SquaredNorm(right));
      assert a * b == b * a;
    }
  }

  lemma {:induction false} DotScales(factor: real, left: Embedding, right: Embedding)
    requires |left| == |right|
    ensures Dot(Scale(factor, left), right) == factor * Dot(left, right)
  {
    if left != [] {
      var last := |left| - 1;
      DotScales(factor, left[..last], right[..last]);
      var scaled := Scale(factor, left);
      assert forall i :: 0 <= i < last ==> scaled[..last][i] == factor * left[..last][i];
      assert scaled[..last] == Scale(factor, left[..last]);
      assert (factor * left[last]) * right[last] == factor * (left[last] * right[last]);
    }
  }

  lemma NormScales(factor: real, v: Embedding)
    ensures SquaredNorm(Scale(factor, v)) == factor * factor * SquaredNorm(v)
  {
    var scaled := Scale(factor, v);
    DotScales(factor, v, scaled);
    DotIsSymmetric(v, scaled);
    DotScales(factor, v, v);
  }

  lemma CosineIgnoresScale(sqrt: SquareRoot, factor: real, left: Embedding, right: Embedding)
    requires IsSquareRoot(sqrt) && factor > 0.0
    ensures Cosine(sqrt, Scale(factor, left), right) == Cosine(sqrt, left, right)
    ensures Cosine(sqrt, left, Scale(factor, right)) == Cosine(sqrt, left, right)
  {
    CosineIgnoresLeftScale(sqrt, factor, left, right);
    CosineIgnoresLeftScale(sqrt, factor, right, left);
    CosineIsSymmetric(sqrt, left, right);
    CosineIsSymmetric(sqrt, left, Scale(factor, right));
  }

  lemma CosineIgnoresLeftScale(sqrt: SquareRoot, factor: real, left: Embedding, right: Embedding)
    requires IsSquareRoot(sqrt) && factor > 0.0
    ensures Cosine(sqrt, Scale(factor, left), right) == Cosine(sqrt, left, right)
  {
    if |left| == |right| {
      var l, r := SquaredNorm(left), SquaredNorm(right);
      NormIsNonNegative(left);
      NormIsNonNegative(right);
      NormScales(factor, left);
      if l > 0.0 && r > 0.0 {
        DotScales(factor, left, right);
        RootScales(sqrt, factor, l, SquaredNorm(Scale(factor, left)));
        PositiveRoot(sqrt, l);
        PositiveRoot(sqrt, r);
        CancelFactor(factor, Dot(left, right), sqrt(l), sqrt(r),
                     Dot(Scale(factor, left), right), sqrt(SquaredNorm(Scale(factor, left))));
      }
    }
  }

  lemma RootScales(sqrt: SquareRoot, factor: real, x: real, y: real)
    requires IsSquareRoot(sqrt) && factor > 0.0 && x > 0.0 && y == factor * factor * x
    ensures y > 0.0 && sqrt(y) == factor * sqrt(x)
  {
    PositiveRoot(sqrt, x);
    ScaledSquare(factor, sqrt(x), x, y);
    PositiveRoot(sqrt, y);
    SquareRootIsUnique(sqrt(y), factor * sqrt(x));
  }

  lemma ScaledSquare(factor: real, s: real, x: real, y: real)
    requires factor > 0.0 && s > 0.0 && s * s == x && y == factor * factor * x
    ensures factor * s > 0.0 && (factor * s) * (factor * s) == y && y > 0.0
  {
    PositiveProduct(factor, s, factor * s);
    PositiveProduct(factor * s, factor * s, y);
  }

  lemma CancelFactor(factor: real, d: real, a: real, b: real, d': real, a': real)
    requires factor > 0.0 && a > 0.0 && b > 0.0 && d' == factor * d && a' == factor * a
    ensures Normalised(d', a', b) == Normalised(d, a, b)
  {
    var p, p' := a * b, a' * b;
    PositiveProduct(a, b, p);
    PositiveProduct(factor, p, p');
    var q := d / p;
    assert q * p == d;
    assert q * p' == factor * (q * p);
    NormalisedIs(d, a, b, p, q);
    NormalisedIs(d', a', b, p', q);
  }

  lemma NormalisedIs(dot: real, a: real, b: real, p: real, q: real)
    requires p > 0.0 && p == a * b && q * p == dot
    ensures Normalised(dot, a, b) == Some(q)
  {
    var difference := dot / p - q;
    assert difference * p == 0.0;
  }

  lemma SelfQuotient(n: real, a: real)
    requires a > 0.0 && a * a == n
    ensures Normalised(n, a, a) == Some(1.0)
  {
    var p := a * a;
    PositiveProduct(a, a, p);
    NormalisedIs(n, a, a, p, 1.0);
  }

  lemma CosineWithItself(sqrt: SquareRoot, v: Embedding)
    requires IsSquareRoot(sqrt)
    ensures Cosine(sqrt, v, v) ==
            if exists i :: 0 <= i < |v| && v[i] != 0.0 then Some(1.0) else None
  {
    NormIsNonNegative(v);
    var n := SquaredNorm(v);
    if n > 0.0 {
      PositiveRoot(sqrt, n);
      SelfQuotient(n, sqrt(n));
    }
  }

  // ----- what a similarity says of the vectors -----

  /** The length of a vector. */
  function Length(sqrt: SquareRoot, v: Embedding): real {
    sqrt(SquaredNorm(v))
  }

  /** Vectors of one dimension, neither of them zero. */
  predicate Comparable(left: Embedding, right: Embedding) {
    |left| == |right| && (exists i :: 0 <= i < |left| && left[i] != 0.0) && (exists i :: 0 <= i < |right| && right[i] != 0.0)
  }

  /** The vectors enclose an angle whose cosine is at least `t`. */
  predicate WithinAngle(sqrt: SquareRoot, left: Embedding, right: Embedding, t: real) {
    Comparable(left, right) && Dot(left, right) >= t * (Length(sqrt, left) * Length(sqrt, right))
  }

  lemma LengthsArePositive(sqrt: SquareRoot, left: Embedding, right: Embedding)
    requires IsSquareRoot(sqrt) && Comparable(left, right)
    ensures SquaredNorm(left) > 0.0 && SquaredNorm(right) > 0.0
    ensures Length(sqrt, left) > 0.0 && Length(sqrt, right) > 0.0
    ensures Length(sqrt, left) * Length(sqrt, right) > 0.0
  {
    NormIsNonNegative(left);
    NormIsNonNegative(right);
    PositiveRoot(sqrt, SquaredNorm(left));
    PositiveRoot(sqrt, SquaredNorm(right));
    PositiveProduct(Length(sqrt, left), Length(sqrt, right), Length(sqrt, left) * Length(sqrt, right));
  }

  /** The similarity times the two lengths is the dot product, when there is one. */
  lemma CosineTimesLengths(sqrt: SquareRoot, left: Embedding, right: Embedding, p: real)
    requires IsSquareRoot(sqrt) && p == Length(sqrt, left) * Length(sqrt, right)
    ensures Cosine(sqrt, left, right).Some? <==> Comparable(left, right)
    ensures Comparable(left, right) ==> p > 0.0 && Cosine(sqrt, left, right).value * p == Dot(left, right)
  {
    CosineIsBounded(sqrt, left, right);
    if Comparable(left, right) {
      LengthsArePositive(sqrt, left, right);
      NormalisedTimesDivisor(Dot(left, right), Length(sqrt, left), Length(sqrt, right), p);
      assert Cosine(sqrt, left, right) == Normalised(Dot(left, right), Length(sqrt, left), Length(sqrt, right));
    }
  }

  lemma NormalisedTimesDivisor(dot: real, a: real, b: real, p: real)
    requires p > 0.0 && p == a * b
    ensures Normalised(dot, a, b).Some? && Normalised(dot, a, b).value * p == dot
  {
  }

  /** If a number times a positive one is `dot`, it reaches `t` exactly when `dot` reaches `t` times that one. */
  lemma FactorReaches(c: real, p: real, dot: real, t: real)
    requires p > 0.0 && c * p == dot
    ensures c >= t <==> dot >= t * p
  {
    if c < t {
      PositiveProduct(t - c, p, t * p - dot);
    } else if c > t {
      PositiveProduct(c - t, p, dot - t * p);
    }
  }

  /** The similarity times the two lengths is the dot product, and it reaches `t` exactly within that angle. */
  lemma CosineMeasuresTheAngle(sqrt: SquareRoot, left: Embedding, right: Embedding, t: real)
    requires IsSquareRoot(sqrt)
    ensures var c := Cosine(sqrt, left, right);
            && (c.Some? <==> Comparable(left, right))
            && (c.Some? ==>
                  && c.value * (Length(sqrt, left) * Length(sqrt, right)) == Dot(left, right)
                  && (c.value >= t <==> WithinAngle(sqrt, left, right, t)))
  {
    hide Cosine, Length, Dot;
    var p := Length(sqrt, left) * Length(sqrt, right);
    CosineTimesLengths(sqrt, left, right, p);
    if Comparable(left, right) {
      FactorReaches(Cosine(sqrt, left, right).value, p, Dot(left, right), t);
    }
  }

  /** A non-zero vector and a positive multiple of it enclose no angle at all. */
  lemma MultiplesAreWithinAnyAngle(sqrt: SquareRoot, factor: real, v: Embedding, t: real)
    requires IsSquareRoot(sqrt) && factor > 0.0 && t <= 1.0
    requires exists i :: 0 <= i < |v| && v[i] != 0.0
    ensures Cosine(sqrt, v, Scale(factor, v)) == Some(1.0)
    ensures WithinAngle(sqrt, v, Scale(factor, v), t)
  {
    CosineWithItself(sqrt, v);
    CosineIgnoresScale(sqrt, factor, v, v);
    CosineMeasuresTheAngle(sqrt, v, Scale(factor, v), t);
  }

  // ----- the accumulator loop -----

  method CosineSimilarity(sqrt: SquareRoot, left: Embedding, right: Embedding)
    returns (similarity: Option<real>)
    requires IsSquareRoot(sqrt)
    ensures similarity == Cosine(sqrt, left, right)
  {
    if |left| != |right| || left == [] {
      return None;
    }
    var dot, leftNorm, rightNorm := 0.0, 0.0, 0.0;
    for i := 0 to |left|
      invariant dot == Dot(left[..i], right[..i])
      invariant leftNorm == SquaredNorm(left[..i]) && rightNorm == SquaredNorm(right[..i])
      invariant dot * dot <= leftNorm * rightNorm
    {
      dot := dot + left[i] * right[i];
      leftNorm := leftNorm + left[i] * left[i];
      rightNorm := rightNorm + right[i] * right[i];
      assert left[..i + 1][..i] == left[..i] && right[..i + 1][..i] == right[..i];
      CauchySchwarz(left[..i + 1], right[..i + 1]);
    }
    assert left[..|left|] == left && right[..|left|] == right;
    if leftNorm == 0.0 || rightNorm == 0.0 {
      return None;
    }
    CosineIsBounded(sqrt, left, right);
    return Normalised(dot, sqrt(leftNorm), sqrt(rightNorm));
  }
}
