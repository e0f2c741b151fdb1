/**
  IEEE doubles as the rho calculation uses them: a number or NaN. Arithmetic
  propagates NaN; a division by zero is folded into NaN (an infinite rho is
  never drawn, just as a NaN one is not). `sqrt`, `cos` and `pow(x, 2.)` come
  from the C library and are passed in as a `MathLib` value.
 */
module Doubles {
  datatype Double = Num(v: real) | NaN

  function Add(a: Double, b: Double): Double
  {
    if a.Num? && b.Num? then Num(a.v + b.v) else NaN
  }

  function Sub(a: Double, b: Double): Double
  {
    if a.Num? && b.Num? then Num(a.v - b.v) else NaN
  }

  function Mul(a: Double, b: Double): Double
  {
    if a.Num? && b.Num? then Num(a.v * b.v) else NaN
  }

  function Div(a: Double, b: Double): Double
  {
    if a.Num? && b.Num? && b.v != 0.0 then Num(a.v / b.v) else NaN
  }

  /** The test `x < 0. || std::isnan(x)`. */
  predicate NegativeOrNaN(x: Double)
  {
    x.NaN? || x.v < 0.0
  }

  /** The library square root, cosine and `pow(x, 2.)`, as the platform provides them. */
  datatype MathLib = MathLib(sqrt: real -> Double, cos: real -> real, square: real -> real)

  function Sqrt(math: MathLib, x: Double): Double
  {
    if x.NaN? then NaN else math.sqrt(x.v)
  }

  /** A square root that behaves as IEEE requires: NaN exactly below zero, never negative. */
  ghost predicate SoundSqrt(math: MathLib)
  {
    forall x: real :: (math.sqrt(x).NaN? <==> x < 0.0) && (math.sqrt(x).Num? ==> math.sqrt(x).v >= 0.0)
  }
}
