/** Auto-contrast: the linear stretch of an intensity from a channel's observed range onto [0, 4095]. */
module Contrast {
  import opened WordCodec

  /**
   * Division rounded toward zero, as a cast from `double` to `int` rounds: the remainder
   * `a - q * b` is zero or has the sign of `a`, and is smaller than `b` in magnitude.
   */
  function TruncDiv(a: int, b: int): (q: int)
    requires b != 0
    ensures a >= 0 && b > 0 ==> q == a / b
    ensures a <= 0 && b > 0 ==> q <= 0
    ensures a - q * b == 0 || (a - q * b > 0) == (a > 0)
    ensures b > 0 ==> -b < a - q * b < b
    ensures b < 0 ==> b < a - q * b < -b
  {
    var n := if a < 0 then -a else a;
    var d := if b < 0 then -b else b;
    DivMod(n, d);
    var q := if (a < 0) == (b < 0) then n / d else -(n / d);
    TruncRemainder(a, b, n / d, n % d, d, q);
    q
  }

  /** With |a| = k * |b| + m, the quotient rounded toward zero leaves m with the sign of a. */
  lemma TruncRemainder(a: int, b: int, k: int, m: int, d: int, q: int)
    requires d == (if b < 0 then -b else b) && d > 0
    requires (if a < 0 then -a else a) == k * d + m
    requires q == (if (a < 0) == (b < 0) then k else -k)
    ensures a - q * b == (if a < 0 then -m else m)
  {
    NegMul(k, d);
  }

  /** Floor division by a positive divisor: quotient and remainder rebuild the dividend. */
  lemma DivMod(n: int, d: int)
    requires d > 0
    ensures n == (n / d) * d + n % d && 0 <= n % d < d
    ensures 0 <= n ==> n % d <= n
  {
  }

  /** How negation moves through a product. */
  lemma NegMul(k: int, d: int)
    ensures (-k) * (-d) == k * d && k * (-d) == -(k * d) && (-k) * d == -(k * d)
  {
  }

  /**
   * `(value - min) * 4095 / (max - min)` rounded toward zero and clamped into [0, 4095].
   * When `min == max` the source divides by a floating-point zero: a positive numerator
   * gives +Infinity (cast to the largest int, clamped to 4095), a negative one -Infinity
   * (cast to the smallest int, clamped to 0), and zero gives NaN (cast to 0).
   */
  function AutoContrast(value: int, min: int, max: int): (r: int)
    ensures 0 <= r <= MAX_INTENSITY
    ensures min < max && min <= value <= max ==> r == (value - min) * MAX_INTENSITY / (max - min)
    ensures min < max && value <= min ==> r == 0
    ensures min < max && max <= value ==> r == MAX_INTENSITY
    ensures min == max ==> r == (if value > min then MAX_INTENSITY else 0)
  {
    if min == max then
      (if value > min then MAX_INTENSITY else 0)
    else
      var q := TruncDiv((value - min) * MAX_INTENSITY, max - min);
      StretchBounds(value, min, max);
      Clamp(q)
  }

  /** Where the stretched quotient lies relative to the ends of the output range. */
  lemma StretchBounds(value: int, min: int, max: int)
    ensures min < max && min <= value <= max ==>
      0 <= (value - min) * MAX_INTENSITY / (max - min) <= MAX_INTENSITY
    ensures min < max && max <= value ==> (value - min) * MAX_INTENSITY / (max - min) >= MAX_INTENSITY
  {
    var d := max - min;
    if d > 0 {
      var a := (value - min) * MAX_INTENSITY;
      var top := d * MAX_INTENSITY;
      MulDivCancel(MAX_INTENSITY, d);
      if min <= value <= max {
        MulLeq(0, value - min, MAX_INTENSITY);
        MulLeq(value - min, d, MAX_INTENSITY);
        DivMonotone(0, a, d);
        DivMonotone(a, top, d);
      }
      if max <= value {
        MulLeq(d, value - min, MAX_INTENSITY);
        DivMonotone(top, a, d);
      }
    }
  }

  /** Multiplication by a non-negative number keeps order. */
  lemma MulLeq(x: int, y: int, k: int)
    requires x <= y && k >= 0
    ensures x * k <= y * k
  {
  }

  /** Multiplying by a positive number and dividing by it again gives the number back. */
  lemma MulDivCancel(k: int, d: int)
    requires d > 0
    ensures d * k / d == k
  {
    var q := d * k / d;
    DivMod(d * k, d);
    assert (k - q) * d == d * k - q * d;
    if k - q >= 1 {
      MulLeq(1, k - q, d);
    } else if k - q <= -1 {
      MulLeq(k - q, -1, d);
    }
  }

  lemma DivMonotone(a: int, b: int, d: int)
    requires a <= b && d > 0
    ensures a / d <= b / d
  {
    var qa, qb := a / d, b / d;
    assert qa * d <= a;
    assert b < (qb + 1) * d;
    MulCancel(qa, qb + 1, d);
  }

  /** Multiplication by a positive number reflects strict order. */
  lemma MulCancel(x: int, y: int, d: int)
    requires d > 0 && x * d < y * d
    ensures x < y
  {
  }

  /** With a proper range the stretch is monotone: brighter input never comes out darker. */
  lemma {:induction false} AutoContrastMonotone(v1: int, v2: int, min: int, max: int)
    requires min < max && v1 <= v2
    ensures AutoContrast(v1, min, max) <= AutoContrast(v2, min, max)
  {
    if v1 <= min || max <= v2 {
    } else {
      var d := max - min;
      DivMonotone((v1 - min) * MAX_INTENSITY, (v2 - min) * MAX_INTENSITY, d);
      if v2 > max {
      } else {
      }
    }
  }

  /**
   * With the range left at its reset values (min 4095, max 0), as it is when no line of a
   * frame was ranged, the stretch turns every intensity into its negative.
   */
  lemma UnrangedInverts(value: int)
    requires 0 <= value <= MAX_INTENSITY
    ensures AutoContrast(value, MAX_INTENSITY, 0) == MAX_INTENSITY - value
  {
    var a := (value - MAX_INTENSITY) * MAX_INTENSITY;
    if value < MAX_INTENSITY {
      assert -a == (MAX_INTENSITY - value) * MAX_INTENSITY;
      assert (-a) / MAX_INTENSITY == MAX_INTENSITY - value;
    }
  }
}
