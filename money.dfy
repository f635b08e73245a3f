/** Exact decimal arithmetic behind the loan engine.

    Every monetary amount is a whole number of cents (the engine only ever
    reads amounts with at most two decimals, and adds, subtracts and compares
    them), rates are exact rationals, and BigDecimal's `setScale(scale, HALF_UP)`
    is `RoundHalfUp` below. The integer power helper `pow(BigDecimal, int,
    MathContext)` is `IntPow`, with the arithmetic taken as exact. */
module Money {

  datatype Option<+T> = None | Some(value: T)

  /** Java's `int`. */
  type Int32 = x: int | -0x8000_0000 <= x < 0x8000_0000

  const IntMin: Int32 := -0x8000_0000
  const IntMax: Int32 := 0x7fff_ffff

  type NonNegReal = x: real | 0.0 <= x

  function Max(a: int, b: int): int { if a >= b then a else b }

  function Min(a: int, b: int): int { if a <= b then a else b }

  function Abs(a: int): nat { if a < 0 then -a else a }

  /** The absolute value of a real. */
  function Magnitude(x: real): real { if x >= 0.0 then x else -x }

  /** `value` lies within `tolerance` of `target`. */
  ghost predicate Within(value: real, target: real, tolerance: real) {
    -tolerance <= value - target <= tolerance
  }

  function Pow10(k: nat): (r: nat)
    ensures r >= 1
  {
    if k == 0 then 1 else 10 * Pow10(k - 1)
  }

  /** `u` is the integer nearest to `y`, a tie going away from zero (HALF_UP). */
  ghost predicate NearestHalfUp(u: int, y: real) {
    var d := u as real - y;
    -0.5 <= d <= 0.5 && (d == 0.5 ==> y > 0.0) && (d == -0.5 ==> y < 0.0)
  }

  /** `x.setScale(scale, HALF_UP)`, as the integer number of units of 10^-scale. */
  function RoundHalfUp(x: real, scale: nat): (u: int)
    ensures NearestHalfUp(u, x * Pow10(scale) as real)
  {
    var y := x * Pow10(scale) as real;
    if y >= 0.0 then (y + 0.5).Floor else -((0.5 - y).Floor)
  }

  /** The value of `x.setScale(scale, HALF_UP)`: it moves `x` by at most
      half a unit of the last place. */
  function Scaled(x: real, scale: nat): (r: real)
    ensures Within(r, x, 0.5 / Pow10(scale) as real)
  {
    HalfUnitError(RoundHalfUp(x, scale) as real, x, Pow10(scale) as real);
    RoundHalfUp(x, scale) as real / Pow10(scale) as real
  }

  /** A number of cents as an amount of currency. */
  function Dollars(cents: int): real { cents as real / 100.0 }

  /** `x.setScale(2, HALF_UP)` for an amount `x` of currency, in cents. */
  function Cents(x: real): int { RoundHalfUp(x, 2) }

  /** HALF_UP rounding has only one possible result: the contract of
      `RoundHalfUp` pins it down. */
  lemma NearestHalfUpUnique(u: int, v: int, y: real)
    requires NearestHalfUp(u, y) && NearestHalfUp(v, y)
    ensures u == v
  {
  }

  /** An integer `u` within half a unit of `x * p` is, divided by `p`, within
      half a `p`-th of `x`. */
  lemma HalfUnitError(u: real, x: real, p: real)
    requires p > 0.0 && -0.5 <= u - x * p <= 0.5
    ensures Within(u / p, x, 0.5 / p)
  {
    ShiftDivide(u, x, p);
    DivideBound(u - x * p, 0.5, p);
  }

  lemma ShiftDivide(u: real, x: real, p: real)
    requires p > 0.0
    ensures u / p - x == (u - x * p) / p
  {
    assert x == (x * p) / p;
  }

  lemma DivideBound(d: real, bound: real, p: real)
    requires p > 0.0 && -bound <= d <= bound
    ensures -(bound / p) <= d / p <= bound / p
  {
    assert (bound - d) / p >= 0.0;
    assert (d + bound) / p >= 0.0;
  }

  /** A product of two bounded factors is bounded by the product of the
      bounds. */
  lemma ProductBound(x: real, y: real, boundX: real, boundY: real)
    requires -boundX <= x <= boundX && -boundY <= y <= boundY
    ensures -(boundX * boundY) <= x * y <= boundX * boundY
  {
    if x >= 0.0 {
      if y >= 0.0 { assert x * y <= boundX * y <= boundX * boundY; }
      else { assert x * (-y) <= boundX * (-y) <= boundX * boundY; }
    } else {
      if y >= 0.0 { assert (-x) * y <= boundX * y <= boundX * boundY; }
      else { assert (-x) * (-y) <= boundX * (-y) <= boundX * boundY; }
    }
  }

  /** A value that does not round to zero units stays non-zero once scaled. */
  lemma ScaledNonZero(x: real, scale: nat)
    requires RoundHalfUp(x, scale) != 0
    ensures Scaled(x, scale) != 0.0
  {
  }

  /** Rounding a value that already has `scale` decimals changes nothing. */
  lemma RoundExact(x: real, scale: nat, k: int)
    requires x * Pow10(scale) as real == k as real
    ensures RoundHalfUp(x, scale) == k
  {
    var y := x * Pow10(scale) as real;
    assert y == k as real;
    if k >= 0 {
      assert (y + 0.5).Floor == k;
    } else {
      assert (0.5 - y).Floor == -k;
    }
  }

  /** `setScale(2)` of an amount in whole cents is that amount. */
  lemma CentsOfDollars(c: int)
    ensures Cents(Dollars(c)) == c
  {
    RoundExact(Dollars(c), 2, c);
  }

  /** A non-negative value rounds to a non-negative one, and a value of at
      least one half rounds to at least one. */
  lemma RoundHalfUpSign(x: real, scale: nat)
    ensures x >= 0.0 ==> RoundHalfUp(x, scale) >= 0
    ensures x * Pow10(scale) as real >= 0.5 ==> RoundHalfUp(x, scale) >= 1
    ensures x * Pow10(scale) as real <= -0.5 ==> RoundHalfUp(x, scale) <= -1
  {
    if x >= 0.0 {
      assert x * Pow10(scale) as real >= 0.0;
    }
  }

  /** HALF_UP rounding never reverses the order of two values. */
  lemma RoundHalfUpMonotone(x: real, y: real, scale: nat)
    requires x <= y
    ensures RoundHalfUp(x, scale) <= RoundHalfUp(y, scale)
  {
    var p := Pow10(scale) as real;
    var scaledX, scaledY := x * p, y * p;
    assert scaledY - scaledX == (y - x) * p;
    assert (y - x) * p >= 0.0;
  }

  // ----- exact powers -----

  function Power(b: real, k: nat): real {
    if k == 0 then 1.0 else b * Power(b, k - 1)
  }

  lemma {:induction false} PowerPositive(b: real, k: nat)
    requires b > 0.0
    ensures Power(b, k) > 0.0
  {
    if k > 0 {
      PowerPositive(b, k - 1);
    }
  }

  lemma {:induction false} PowerAboveOne(b: real, k: nat)
    requires b > 1.0 && k >= 1
    ensures Power(b, k) > 1.0
  {
    if k > 1 {
      PowerAboveOne(b, k - 1);
      var x := Power(b, k - 1);
      assert b * x > 1.0 * x;
    }
  }

  lemma {:induction false} PowerZero(b: real, k: nat)
    ensures Power(b, k) == 0.0 <==> b == 0.0 && k > 0
  {
    if k > 0 {
      PowerZero(b, k - 1);
    }
  }

  lemma {:induction false} PowerSquare(b: real, k: nat)
    ensures Power(b * b, k) == Power(b, 2 * k)
  {
    if k > 0 {
      PowerSquare(b, k - 1);
      calc {
        Power(b * b, k);
        (b * b) * Power(b, 2 * k - 2);
        b * (b * Power(b, 2 * k - 2));
        Power(b, 2 * k);
      }
    }
  }

  /** One halving step of square-and-multiply. */
  lemma PowerHalve(b: real, e: nat)
    ensures Power(b, e) == (if e % 2 == 1 then b else 1.0) * Power(b * b, e / 2)
  {
    PowerSquare(b, e / 2);
    if e % 2 == 1 {
      assert e == 2 * (e / 2) + 1;
    } else {
      assert e == 2 * (e / 2);
    }
  }

  /** What `pow(base, n, mc)` computes, with exact arithmetic: base^n for
      n >= 0, the reciprocal of base^|n| for n < 0, and nothing when that
      reciprocal divides by zero (BigDecimal.divide throws). */
  function PowSpec(base: real, n: int): Option<real> {
    if n >= 0 then Some(Power(base, n))
    else if Power(base, -n) == 0.0 then None
    else Some(1.0 / Power(base, -n))
  }

  /** A negative power is the reciprocal of the positive one. */
  lemma PowSpecReciprocal(base: real, n: nat)
    requires base != 0.0
    ensures PowSpec(base, n).Some? && PowSpec(base, -(n as int)).Some?
    ensures PowSpec(base, n).value * PowSpec(base, -(n as int)).value == 1.0
  {
    PowerZero(base, n);
  }

  /** `pow(BigDecimal base, int n, MathContext mc)`: square-and-multiply over
      |n|, then one division for a negative exponent. The exponent is taken
      without Java's `Math.abs` overflow (see `PowAsWritten`). */
  method IntPow(base: real, n: int) returns (r: Option<real>)
    ensures r == PowSpec(base, n)
  {
    if n == 0 {
      return Some(1.0);
    }
    var neg := n < 0;
    var exp: int := if neg then -n else n;
    ghost var magnitude: nat := exp;
    var result := 1.0;
    var b := base;
    while exp > 0
      invariant 0 <= exp
      invariant result * Power(b, exp) == Power(base, magnitude)
    {
      PowerHalve(b, exp);
      if exp % 2 == 1 {
        result := result * b;
      }
      b := b * b;
      exp := exp / 2;
    }
    if neg {
      if result == 0.0 {
        return None;
      }
      return Some(1.0 / result);
    }
    return Some(result);
  }

  /** `Math.abs` on a Java int: the negation of Integer.MIN_VALUE overflows
      back to Integer.MIN_VALUE. */
  function JavaAbs(n: Int32): (m: Int32)
    ensures n != IntMin ==> m >= 0 && (m == n || m == -n)
    ensures n == IntMin ==> m < 0
  {
    if n == IntMin then n else if n < 0 then -n else n
  }

  /** `pow(base, n, mc)` as written for a Java int `n`: `exp = Math.abs(n)`
      and the loop runs while `exp > 0`, so for Integer.MIN_VALUE the loop
      never runs and the result is 1 / 1. For every other `n` it agrees with
      the intended power. */
  function PowAsWritten(base: real, n: Int32): (r: Option<real>)
    ensures n != IntMin ==> r == PowSpec(base, n)
  {
    if n == 0 then Some(1.0)
    else
      var exp := JavaAbs(n);
      var result := if exp > 0 then Power(base, exp) else 1.0;
      if n < 0 then (if result == 0.0 then None else Some(1.0 / result))
      else Some(result)
  }

  /** The input that shows it: 2 to the power Integer.MIN_VALUE comes out
      as 1, while the intended value is 1 / 2^2147483648. */
  lemma PowAsWrittenAtIntMin()
    ensures PowAsWritten(2.0, IntMin) == Some(1.0)
    ensures PowSpec(2.0, IntMin) != Some(1.0)
  {
    PowerAboveOne(2.0, 0x8000_0000);
  }
}
