/** `round` of the analysis modules: `Math.round((value + Number.EPSILON) * factor) / factor`. */
module Rounding {
  import opened Basics

  // Number.EPSILON is two to the power of minus 52.
  const EPSILON: real := 1.0 / 4503599627370496.0

  const HALER := 100.0
  const KILOWATT := 1000.0
  const ENERGY := 1000000.0

  /** `Math.round` rounds half up, also for negative arguments. */
  function MathRound(x: real): int {
    (x + 0.5).Floor
  }

  function Scaled(value: real, factor: real): int {
    MathRound((value + EPSILON) * factor)
  }

  function Round(value: real, factor: real): real
    requires factor > 0.0
  {
    Scaled(value, factor) as real / factor
  }

  lemma ScaledBounds(value: real, factor: real)
    ensures (value + EPSILON) * factor - 0.5 < Scaled(value, factor) as real <= (value + EPSILON) * factor + 0.5
  {
  }

  /** The rounded value is at most half a unit away from the shifted input. */
  lemma RoundNear(value: real, factor: real)
    requires factor > 0.0
    ensures Abs(Round(value, factor) - (value + EPSILON)) <= 0.5 / factor
  {
    ScaledBounds(value, factor);
    var n := Scaled(value, factor) as real;
    assert (value + EPSILON) * factor / factor == value + EPSILON;
    var gap := n - (value + EPSILON) * factor;
    assert Round(value, factor) - (value + EPSILON) == gap / factor;
    DivMonotone(gap, 0.5, factor);
    DivMonotone(-0.5, gap, factor);
  }

  lemma RoundMonotone(a: real, b: real, factor: real)
    requires factor > 0.0 && a <= b
    ensures Round(a, factor) <= Round(b, factor)
  {
    MulMonotone(a + EPSILON, b + EPSILON, factor);
    assert Scaled(a, factor) <= Scaled(b, factor);
    DivMonotone(Scaled(a, factor) as real, Scaled(b, factor) as real, factor);
  }

  /** The published variable cost differs from the published import cost minus
      export revenue by at most one haler, inside the 0.05 CZK tolerance of the
      control audit. */
  lemma DecompositionWithinOneHaler(cost: real, revenue: real)
    ensures Abs(Round(cost - revenue, HALER) - (Round(cost, HALER) - Round(revenue, HALER))) <= 0.01
  {
    ScaledBounds(cost - revenue, HALER);
    ScaledBounds(cost, HALER);
    ScaledBounds(revenue, HALER);
    var difference := Scaled(cost - revenue, HALER) - Scaled(cost, HALER) + Scaled(revenue, HALER);
    assert -2.0 < difference as real < 2.0;
    assert -1 <= difference <= 1;
  }

  /** Non-negative amounts stay non-negative when published. */
  lemma RoundNonNegative(value: real, factor: real)
    requires factor > 0.0 && value >= 0.0
    ensures Round(value, factor) >= 0.0
  {
    MulNonNegative(value + EPSILON, factor);
    DivNonNegative(Scaled(value, factor) as real, factor);
  }
}
