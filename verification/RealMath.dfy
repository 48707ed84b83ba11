/** The float operations of the modelled code, over the reals. */
module RealMath {

  function MinReal(a: real, b: real): real {
    if a <= b then a else b
  }

  function MaxReal(a: real, b: real): real {
    if a >= b then a else b
  }

  function Abs(x: real): real {
    if x < 0.0 then -x else x
  }

  /** `clamp`, which panics when its bounds are out of order. */
  function Clamp(x: real, lo: real, hi: real): (r: real)
    requires lo <= hi
    ensures lo <= r <= hi && (lo <= x <= hi ==> r == x)
  {
    if x < lo then lo else if x > hi then hi else x
  }

  function Ceiling(x: real): (n: int)
    ensures n as real - 1.0 < x <= n as real
  {
    -((-x).Floor)
  }

  /** `round`: to the nearest integer, halves away from zero. */
  function Round(x: real): int {
    if x >= 0.0 then (x + 0.5).Floor else -((-x + 0.5).Floor)
  }

  /** A cast to an unsigned integer: truncates, and negative numbers become zero. */
  function ToUnsigned(x: real): nat {
    if x <= 0.0 then 0 else x.Floor
  }

  function Sum(values: seq<real>): real {
    if values == [] then 0.0 else Sum(values[..|values| - 1]) + values[|values| - 1]
  }

  lemma DivideBounds(x: real, low: real, high: real, d: real)
    requires d > 0.0 && low * d <= x <= high * d
    ensures low <= x / d <= high
  {
    var q := x / d;
    assert q * d == x;
    if q < low {
      PositiveProduct(low - q, d, low * d - x);
    } else if q > high {
      PositiveProduct(q - high, d, x - high * d);
    }
  }

  /** The product has a name of its own because the solver is weak on squares of reals. */
  lemma PositiveProduct(a: real, b: real, product: real)
    requires a > 0.0 && b > 0.0 && product == a * b
    ensures product > 0.0
  {
  }

  lemma SquareIsNonNegative(x: real, square: real)
    requires square == x * x
    ensures square >= 0.0 && (square == 0.0 <==> x == 0.0)
  {
    if x > 0.0 {
      PositiveProduct(x, x, square);
    } else if x < 0.0 {
      PositiveProduct(-x, -x, square);
    }
  }
}
