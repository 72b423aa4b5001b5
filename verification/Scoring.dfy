/** Point arithmetic. The source computes in `f64`; the model computes in
    `real`, with the source's rounding and saturating casts written out. */
module Scoring {
  import opened Prelude

  /** `f64::round`: to the nearest integer, halves away from zero. */
  function Round(v: real): int {
    if v >= 0.0 then (v + 0.5).Floor else -((0.5 - v).Floor)
  }

  /** `as u32` from a float saturates. */
  function SaturateU32(n: int): U32 {
    if n < 0 then 0 else if n > U32_MAX then U32_MAX else n
  }

  /** `as i64` from a float saturates. */
  function SaturateI64(n: int): int {
    if n < -I64_MAX - 1 then -I64_MAX - 1 else if n > I64_MAX then I64_MAX else n
  }

  function Square(n: nat): nat {
    n * n
  }

  /** `1 / (1 + (x*x)/(d*d))`; with `d == 0` the quotient is infinite and the
      ratio is zero. */
  function Ratio(decay: nat, x: nat): real
    requires x >= 1
  {
    if decay == 0 then 0.0 else 1.0 / (1.0 + Square(x) as real / Square(decay) as real)
  }

  function DecayedValue(initial: U32, minimum: U32, decay: U32, x: nat): real
    requires x >= 1
  {
    (initial as real - minimum as real) * Ratio(decay, x) + minimum as real
  }

  function DynamicPoints(initial: U32, minimum: U32, decay: U32, solveCount: nat): U32 {
    if solveCount <= 1 then initial
    else SaturateU32(Round(DecayedValue(initial, minimum, decay, solveCount - 1)))
  }

  lemma RoundMonotone(a: real, b: real)
    requires a <= b
    ensures Round(a) <= Round(b)
  {
  }

  lemma RoundInteger(n: int)
    ensures Round(n as real) == n
  {
  }

  lemma SquarePositive(n: nat)
    requires n >= 1
    ensures Square(n) >= 1
  {
  }

  lemma SquareMonotone(x: nat, y: nat)
    requires x <= y
    ensures Square(x) <= Square(y)
  {
  }

  lemma QuotientMonotone(a: real, b: real, c: real)
    requires 0.0 <= a <= b && c > 0.0
    ensures 0.0 <= a / c <= b / c
  {
  }

  lemma ReciprocalAntitone(a: real, b: real)
    requires 1.0 <= a <= b
    ensures 0.0 < 1.0 / b <= 1.0 / a <= 1.0
  {
  }

  lemma RatioAntitone(decay: nat, x: nat, y: nat)
    requires 1 <= x <= y
    ensures 0.0 <= Ratio(decay, y) <= Ratio(decay, x) <= 1.0
  {
    if decay > 0 {
      SquarePositive(decay);
      SquareMonotone(x, y);
      var d := Square(decay) as real;
      QuotientMonotone(Square(x) as real, Square(y) as real, d);
      ReciprocalAntitone(1.0 + Square(x) as real / d, 1.0 + Square(y) as real / d);
    }
  }

  lemma ScaleMonotone(k: real, r: real, s: real)
    requires 0.0 <= r <= s <= 1.0
    ensures k >= 0.0 ==> 0.0 <= k * r <= k * s <= k
    ensures k <= 0.0 ==> k <= k * s <= k * r <= 0.0
  {
  }

  lemma DecayedValueOrder(initial: U32, minimum: U32, decay: U32, x: nat, y: nat)
    requires 1 <= x <= y
    ensures minimum <= initial ==>
      minimum as real <= DecayedValue(initial, minimum, decay, y)
                      <= DecayedValue(initial, minimum, decay, x) <= initial as real
    ensures initial <= minimum ==>
      initial as real <= DecayedValue(initial, minimum, decay, x)
                      <= DecayedValue(initial, minimum, decay, y) <= minimum as real
  {
    RatioAntitone(decay, x, y);
    ScaleMonotone(initial as real - minimum as real, Ratio(decay, y), Ratio(decay, x));
  }

  /** The whole promise of dynamic decay, rounding included: full value for at
      most one solve, always between the two bounds, and moving only towards
      `minimum` as solves arrive - whichever side of `initial` that is. */
  lemma DecayMovesTowardsMinimum(initial: U32, minimum: U32, decay: U32, m: nat, n: nat)
    requires m <= n
    ensures n <= 1 ==> DynamicPoints(initial, minimum, decay, n) == initial
    ensures minimum <= initial ==>
      minimum <= DynamicPoints(initial, minimum, decay, n)
              <= DynamicPoints(initial, minimum, decay, m) <= initial
    ensures initial <= minimum ==>
      initial <= DynamicPoints(initial, minimum, decay, m)
              <= DynamicPoints(initial, minimum, decay, n) <= minimum
  {
    if n >= 2 {
      RoundInteger(initial);
      RoundInteger(minimum);
      var x := if m >= 2 then m - 1 else n - 1;
      DecayedValueOrder(initial, minimum, decay, x, n - 1);
      var vx := DecayedValue(initial, minimum, decay, x);
      var vn := DecayedValue(initial, minimum, decay, n - 1);
      if minimum <= initial {
        RoundMonotone(minimum as real, vn);
        RoundMonotone(vn, vx);
        RoundMonotone(vx, initial as real);
      } else {
        RoundMonotone(initial as real, vx);
        RoundMonotone(vx, vn);
        RoundMonotone(vn, minimum as real);
      }
    }
  }

  lemma CancelQuotient(a: real, b: real)
    requires a > 0.0 && b >= 0.0
    ensures (1.0 / (1.0 + b / a)) * (a + b) == a
  {
    var q := b / a;
    assert q * a == b;
    assert (1.0 / (1.0 + q)) * (1.0 + q) == 1.0;
    assert a + b == (1.0 + q) * a;
  }

  lemma RatioEquation(decay: nat, x: nat)
    requires x >= 1
    ensures Ratio(decay, x) * (Square(decay) as real + Square(x) as real) == Square(decay) as real
  {
    if decay > 0 {
      SquarePositive(decay);
      CancelQuotient(Square(decay) as real, Square(x) as real);
    }
  }

  lemma Regroup(k: real, r: real, t: real, u: real)
    requires r * t == u
    ensures k * r * t == k * u
  {
  }

  /** The curve itself, free of quotients: the span left above `minimum` after
      `x + 1` solves is `d*d / (d*d + x*x)` of the whole span, `d == 0` included. */
  lemma DecayEquation(initial: U32, minimum: U32, decay: U32, x: nat)
    requires x >= 1
    ensures (DecayedValue(initial, minimum, decay, x) - minimum as real) * (Square(decay) as real + Square(x) as real)
         == (initial as real - minimum as real) * Square(decay) as real
  {
    RatioEquation(decay, x);
    Regroup(initial as real - minimum as real, Ratio(decay, x),
            Square(decay) as real + Square(x) as real, Square(decay) as real);
  }

  lemma RoundIsNearest(v: real)
    ensures -0.5 <= Round(v) as real - v <= 0.5
    ensures Round(v) as real - v == -0.5 ==> v < 0.0
    ensures Round(v) as real - v == 0.5 ==> v >= 0.0
  {
  }

  /** From the second solve on the points are the exact value to the nearest integer. */
  lemma PointsAreNearest(initial: U32, minimum: U32, decay: U32, n: nat)
    requires n >= 2
    ensures -0.5 < DynamicPoints(initial, minimum, decay, n) as real - DecayedValue(initial, minimum, decay, n - 1)
    ensures DynamicPoints(initial, minimum, decay, n) as real - DecayedValue(initial, minimum, decay, n - 1) <= 0.5
  {
    var v := DecayedValue(initial, minimum, decay, n - 1);
    DecayedValueOrder(initial, minimum, decay, n - 1, n - 1);
    RoundIsNearest(v);
    RoundInteger(initial);
    RoundInteger(minimum);
    if minimum <= initial {
      RoundMonotone(minimum as real, v);
      RoundMonotone(v, initial as real);
    } else {
      RoundMonotone(initial as real, v);
      RoundMonotone(v, minimum as real);
    }
  }
}
