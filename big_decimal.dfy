/** Decimal arithmetic as the bignumber.js library does it with its default
    configuration: `times` and `pow` are exact, `div` rounds its quotient to
    `DECIMAL_PLACES` (20) digits after the point with `ROUND_HALF_UP`
    (to the nearest neighbour, a tie away from zero). One unit in the last
    kept place is 1 / 1.0e20; the factor is written out as a literal so
    that the prover sees multiplication by a constant. */
module BigDecimal {

  /** The value has at most 20 digits after the point. */
  predicate Representable(x: real) {
    (x * 1.0e20).Floor as real == x * 1.0e20
  }

  /** `x` rounded to 20 places, a tie away from zero. */
  function RoundHalfUp(x: real): real {
    if x >= 0.0 then (x * 1.0e20 + 0.5).Floor as real / 1.0e20
    else -((-x * 1.0e20 + 0.5).Floor as real / 1.0e20)
  }

  /** The rounded value lies within half a unit in the last place of `x`. */
  lemma RoundHalfUpNear(x: real)
    ensures x - 0.5 / 1.0e20 <= RoundHalfUp(x) <= x + 0.5 / 1.0e20
  {
    if x >= 0.0 {
      var n := (x * 1.0e20 + 0.5).Floor as real;
      assert n <= x * 1.0e20 + 0.5 < n + 1.0;
      assert RoundHalfUp(x) == n / 1.0e20;
    } else {
      var n := (-x * 1.0e20 + 0.5).Floor as real;
      assert n <= -x * 1.0e20 + 0.5 < n + 1.0;
      assert RoundHalfUp(x) == -(n / 1.0e20);
    }
  }

  /** The rounded value fits in the kept places. */
  lemma RoundHalfUpRepresentable(x: real)
    ensures Representable(RoundHalfUp(x))
  {
    var r := RoundHalfUp(x);
    if x >= 0.0 {
      var n := (x * 1.0e20 + 0.5).Floor;
      assert r * 1.0e20 == n as real;
    } else {
      var n := (-x * 1.0e20 + 0.5).Floor;
      assert r * 1.0e20 == (-n) as real;
    }
  }

  /** Together: representable, near `x`, and of the sign of `x` (or zero). */
  lemma RoundHalfUpSpec(x: real)
    ensures Representable(RoundHalfUp(x))
    ensures x - 0.5 / 1.0e20 <= RoundHalfUp(x) <= x + 0.5 / 1.0e20
    ensures x >= 0.0 ==> RoundHalfUp(x) >= 0.0
    ensures x <= 0.0 ==> RoundHalfUp(x) <= 0.0
  {
    RoundHalfUpNear(x);
    RoundHalfUpRepresentable(x);
  }

  /** Rounding keeps a value that already fits in the kept places, so
      rounding twice is rounding once. */
  lemma RoundHalfUpExact(x: real)
    requires Representable(x)
    ensures RoundHalfUp(x) == x
  {
    var m := (x * 1.0e20).Floor;
    if x >= 0.0 {
      assert (x * 1.0e20 + 0.5).Floor == m;
      assert RoundHalfUp(x) == m as real / 1.0e20;
    } else {
      assert (-x * 1.0e20 + 0.5).Floor == -m;
      assert RoundHalfUp(x) == -((-m) as real / 1.0e20);
    }
  }

  lemma RoundHalfUpIdempotent(x: real)
    ensures RoundHalfUp(RoundHalfUp(x)) == RoundHalfUp(x)
  {
    RoundHalfUpSpec(x);
    RoundHalfUpExact(RoundHalfUp(x));
  }

  /** A tie is rounded away from zero. */
  lemma RoundHalfUpTie(x: real)
    requires x * 1.0e20 - (x * 1.0e20).Floor as real == 0.5
    ensures x >= 0.0 ==> RoundHalfUp(x) == x + 0.5 / 1.0e20
    ensures x < 0.0 ==> RoundHalfUp(x) == x - 0.5 / 1.0e20
  {
    var m := (x * 1.0e20).Floor;
    if x >= 0.0 {
      assert (x * 1.0e20 + 0.5).Floor == m + 1;
      assert RoundHalfUp(x) == (m + 1) as real / 1.0e20;
    } else {
      assert (-x * 1.0e20 + 0.5).Floor == -m;
      assert RoundHalfUp(x) == -((-m) as real / 1.0e20);
    }
  }

  /** `a.times(b)`: exact. */
  function Times(a: real, b: real): real {
    a * b
  }

  /** `a.div(b)`: the quotient rounded to 20 places. */
  function Div(a: real, b: real): real
    requires b != 0.0
  {
    RoundHalfUp(a / b)
  }

  /** The rounded quotient fits in the kept places, lies within half a unit
      in the last place of the exact quotient, and is not negative when the
      exact quotient is not. */
  lemma DivSpec(a: real, b: real)
    requires b != 0.0
    ensures Representable(Div(a, b))
    ensures a / b - 0.5 / 1.0e20 <= Div(a, b) <= a / b + 0.5 / 1.0e20
    ensures a / b >= 0.0 ==> Div(a, b) >= 0.0
  {
    RoundHalfUpSpec(a / b);
  }

  /** A quotient that fits in the kept places is not rounded. */
  lemma DivExact(a: real, b: real)
    requires b != 0.0 && Representable(a / b)
    ensures Div(a, b) == a / b
  {
    RoundHalfUpExact(a / b);
  }

  /** For a positive divisor the rounded quotient times the divisor is within
      half a unit in the last place (scaled by the divisor) of the dividend. */
  lemma DivTimesDivisor(a: real, b: real)
    requires b > 0.0
    ensures a - b * (0.5 / 1.0e20) <= Div(a, b) * b <= a + b * (0.5 / 1.0e20)
  {
    DivSpec(a, b);
    NearQuotient(Div(a, b), a, b, 0.5 / 1.0e20);
  }

  lemma NearQuotient(q: real, a: real, b: real, h: real)
    requires b > 0.0 && a / b - h <= q <= a / b + h
    ensures a - b * h <= q * b <= a + b * h
  {
    var e := q - a / b;
    assert -h <= e <= h;
    assert q * b == a + e * b;
    assert -h * b <= e * b <= h * b;
  }
}
