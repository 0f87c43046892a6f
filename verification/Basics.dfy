/** Shared small datatypes and the arithmetic helpers the analysis code takes from `Math`. */
module Basics {
  datatype Option<+T> = None | Some(value: T)

  datatype Result<+T, +E> = Ok(value: T) | Err(error: E)

  function Min(a: real, b: real): real {
    if a <= b then a else b
  }

  function Max(a: real, b: real): real {
    if a >= b then a else b
  }

  function Abs(a: real): real {
    if a >= 0.0 then a else -a
  }

  /** `Math.min(value, limit)` where a missing limit stands for positive infinity. */
  function Cap(value: real, limit: Option<real>): real {
    match limit
    case None => value
    case Some(l) => Min(value, l)
  }

  // ---- real arithmetic, one small fact each ----

  lemma DivTimes(a: real, b: real)
    requires b != 0.0
    ensures (a / b) * b == a
  {
  }

  lemma TimesDiv(a: real, b: real)
    requires b != 0.0
    ensures (a * b) / b == a
  {
  }

  lemma DivNonNegative(a: real, b: real)
    requires a >= 0.0 && b > 0.0
    ensures a / b >= 0.0
  {
  }

  lemma MulMonotone(a: real, b: real, c: real)
    requires a <= b && c >= 0.0
    ensures a * c <= b * c
  {
  }

  lemma MulPositive(a: real, b: real)
    requires a > 0.0 && b > 0.0
    ensures a * b > 0.0
  {
  }

  lemma MulNonNegative(a: real, b: real)
    requires a >= 0.0 && b >= 0.0
    ensures a * b >= 0.0
  {
  }

  lemma DivPositive(a: real, b: real)
    requires a > 0.0 && b > 0.0
    ensures a / b > 0.0
  {
  }

  lemma SquareOfShare(x: real)
    requires 0.0 < x <= 1.0
    ensures 0.0 < x * x <= 1.0
  {
    MulPositive(x, x);
    MulMonotone(x, 1.0, x);
    assert x * x <= x;
  }

  /** Dividing by a positive divisor keeps the order. */
  lemma DivMonotone(a: real, b: real, c: real)
    requires a <= b && c > 0.0
    ensures a / c <= b / c
  {
    assert a / c * c <= b / c * c;
  }

  /** The two-sided reading of a quotient bound. */
  lemma DivBound(a: real, b: real, c: real)
    requires c > 0.0
    ensures a <= b / c <==> a * c <= b
  {
    DivTimes(b, c);
    if a <= b / c {
      MulMonotone(a, b / c, c);
    } else {
      assert a * c > (b / c) * c;
    }
  }
}
