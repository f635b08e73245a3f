/** The rate converter: payment frequencies, compounding conventions, the
    number of payment periods in a term, and `periodicRate`. */
module Rates {
  import opened Money

  /** How often payments happen in one year. */
  datatype Frequency = Monthly | Biweekly | Weekly {
    function PeriodsPerYear(): nat {
      match this
      case Monthly => 12
      case Biweekly => 26
      case Weekly => 52
    }
  }

  /** How the APR turns into a per-period rate. */
  datatype Compounding = NominalMonthly | NominalDaily | EffectiveAnnual

  /** `(int) Math.ceil(termMonths * (ppy / 12.0))`: the smallest number of
      periods that covers the term, saturated at Integer.MAX_VALUE by the
      cast. The double computation yields exactly this ceiling: 26 / 12.0 and
      52 / 12.0 lie just below the true quotients, 12 / 12.0 is exact, and a
      non-integer term·ppy/12 is at least 1/6 away from the next integer. */
  function PeriodCount(termMonths: Int32, f: Frequency): (n: Int32)
    requires termMonths > 0
    ensures 1 <= n
    ensures (n - 1) * 12 < termMonths * f.PeriodsPerYear()
    ensures termMonths * f.PeriodsPerYear() <= n * 12 || n == IntMax
  {
    var ceiling := (termMonths * f.PeriodsPerYear() + 11) / 12;
    if ceiling > IntMax then IntMax else ceiling
  }

  /** The annual rate as a decimal fraction, `aprPercent / 100` rounded
      HALF_UP to 12 places. */
  function AnnualRate(aprPercent: real): real {
    Scaled(aprPercent / 100.0, 12)
  }

  /** `periodicRate(aprPercent, f.periodsPerYear, c)`. A null APR and an APR
      that rounds to zero give rate zero. Nominal-monthly divides the APR by 12
      (to 20 places) and scales by 12 / periodsPerYear (to 20 places); the
      final 20-digit MathContext product is taken as exact. The other two
      conventions go through `Math.pow` on doubles: their outcome is the
      parameter `floatRate`. */
  function PeriodicRate(aprPercent: Option<real>, f: Frequency, c: Compounding, floatRate: NonNegReal): (r: real)
    ensures aprPercent.None? ==> r == 0.0
    ensures aprPercent.Some? && aprPercent.value >= 0.0 ==> r >= 0.0
    ensures c == NominalMonthly && aprPercent.Some? ==>
              (r == 0.0 <==> RoundHalfUp(aprPercent.value / 100.0, 12) == 0)
    ensures c != NominalMonthly && aprPercent.Some? ==>
              r == (if RoundHalfUp(aprPercent.value / 100.0, 12) == 0 then 0.0 else floatRate)
  {
    if aprPercent.None? then 0.0
    else
      var apr := AnnualRate(aprPercent.value);
      if apr == 0.0 then 0.0
      else
        match c
        case NominalMonthly =>
          MonthlyRateSign(aprPercent.value, f);
          NominalMonthlyRateOf(apr, f.PeriodsPerYear() as real, 20)
        case _ => floatRate
  }

  /** The nominal-monthly conversion of a non-zero annual rate `apr` for
      `ppy` periods a year, rounding to `places` decimals (20 in
      `periodicRate`): apr / 12 rounded, times 12 / ppy rounded. The two
      roundings leave it within (1 + |apr|) units of the last place of
      apr / ppy. */
  function NominalMonthlyRateOf(apr: real, ppy: real, places: nat): (r: real)
    requires ppy >= 12.0
    ensures Within(r, apr / ppy, (1.0 + Magnitude(apr)) / Pow10(places) as real)
    ensures Scaled(12.0 / ppy, places) > 0.0 ==>
              (Scaled(apr / 12.0, places) > 0.0 ==> r > 0.0) &&
              (Scaled(apr / 12.0, places) < 0.0 ==> r < 0.0)
  {
    var monthly, factor := Scaled(apr / 12.0, places), Scaled(12.0 / ppy, places);
    RoundedProductError(apr, ppy, monthly, factor, Pow10(places) as real);
    monthly * factor
  }

  /** The two rounded factors of the nominal-monthly rate are never zero,
      and the first has the sign of the APR. */
  lemma MonthlyRateSign(aprPercent: real, f: Frequency)
    requires AnnualRate(aprPercent) != 0.0
    ensures Scaled(12.0 / f.PeriodsPerYear() as real, 20) > 0.0
    ensures AnnualRate(aprPercent) > 0.0 ==> Scaled(AnnualRate(aprPercent) / 12.0, 20) > 0.0
    ensures AnnualRate(aprPercent) < 0.0 ==> Scaled(AnnualRate(aprPercent) / 12.0, 20) < 0.0
  {
    var p20 := Pow10(20);
    assert p20 == 100_000_000_000_000_000_000;
    assert Pow10(12) == 1_000_000_000_000;
    var ppy := f.PeriodsPerYear() as real;
    assert 12.0 / ppy * p20 as real >= 0.5;
    RoundHalfUpSign(12.0 / ppy, 20);
    var apr := AnnualRate(aprPercent);
    var k := RoundHalfUp(aprPercent / 100.0, 12);
    assert apr == k as real / 1_000_000_000_000.0;
    if apr > 0.0 {
      assert k >= 1;
      assert apr / 12.0 * p20 as real >= 0.5;
      RoundHalfUpSign(apr / 12.0, 20);
    } else {
      assert k <= -1;
      assert apr / 12.0 * p20 as real <= -0.5;
      RoundHalfUpSign(apr / 12.0, 20);
    }
  }

  /** For monthly payments the scaling factor 12 / 12 is exactly one, so the
      per-period rate is the APR divided by 12, to 20 places. */
  lemma MonthlyPaymentsUseMonthlyRate(aprPercent: real, floatRate: NonNegReal)
    requires RoundHalfUp(aprPercent / 100.0, 12) != 0
    ensures PeriodicRate(Some(aprPercent), Monthly, NominalMonthly, floatRate)
            == Scaled(AnnualRate(aprPercent) / 12.0, 20)
  {
    ScaledNonZero(aprPercent / 100.0, 12);
    assert PeriodicRate(Some(aprPercent), Monthly, NominalMonthly, floatRate)
           == NominalMonthlyRateOf(AnnualRate(aprPercent), 12.0, 20);
    MonthlyFactor(AnnualRate(aprPercent), 20);
  }

  /** With 12 periods a year the factor 12 / 12 rounds to exactly one. */
  lemma MonthlyFactor(apr: real, places: nat)
    ensures NominalMonthlyRateOf(apr, 12.0, places) == Scaled(apr / 12.0, places)
  {
    RoundExact(12.0 / 12.0, places, Pow10(places));
  }

  /** For every payment frequency, the nominal-monthly rate is the annual
      rate spread over the periods of a year, `apr / periodsPerYear`, up to
      the two 20-place roundings: within (1 + |apr|)·10^-20 of it. */
  lemma NominalMonthlyRate(aprPercent: real, f: Frequency, floatRate: NonNegReal)
    requires AnnualRate(aprPercent) != 0.0
    ensures var apr := AnnualRate(aprPercent);
      Within(PeriodicRate(Some(aprPercent), f, NominalMonthly, floatRate),
             apr / f.PeriodsPerYear() as real,
             (1.0 + Magnitude(apr)) / Pow10(20) as real)
  {
    NominalMonthlyUnfold(aprPercent, f, floatRate);
  }

  /** A non-zero APR under nominal-monthly compounding reaches the
      conversion with 20 places. */
  lemma NominalMonthlyUnfold(aprPercent: real, f: Frequency, floatRate: NonNegReal)
    requires AnnualRate(aprPercent) != 0.0
    ensures PeriodicRate(Some(aprPercent), f, NominalMonthly, floatRate)
            == NominalMonthlyRateOf(AnnualRate(aprPercent), f.PeriodsPerYear() as real, 20)
  {
  }

  /** Two factors each within half a unit of the p-th part of apr / 12 and of
      12 / ppy multiply to within (1 + |apr|) / p of apr / ppy, when ppy is at
      least 12. */
  lemma RoundedProductError(apr: real, ppy: real, monthly: real, factor: real, p: real)
    requires ppy >= 12.0 && p >= 1.0
    requires Within(monthly, apr / 12.0, 0.5 / p) && Within(factor, 12.0 / ppy, 0.5 / p)
    ensures Within(monthly * factor, apr / ppy, (1.0 + Magnitude(apr)) / p)
  {
    var magnitude := Magnitude(apr);
    var h, m, tolerance := 0.5 / p, magnitude / 12.0, (1.0 + magnitude) / p;
    HalfUnit(p, magnitude, h, tolerance);
    QuotientAtMostOne(ppy);
    SmallErrorBound(magnitude, h, m, tolerance);
    QuotientProduct(apr, ppy);
    ProductError(apr / 12.0, 12.0 / ppy, apr / ppy, monthly, factor, h, m, tolerance);
  }

  /** Half a unit of the p-th part is at most one, and twice it spans the
      tolerance. */
  lemma HalfUnit(p: real, magnitude: real, h: real, tolerance: real)
    requires p >= 1.0 && h == 0.5 / p && tolerance == (1.0 + magnitude) / p
    ensures 0.0 <= h <= 1.0 && tolerance == 2.0 * h * (1.0 + magnitude)
  {
  }

  /** Approximations within `h` of `x` (with |x| <= m) and of `q` (with
      0 < q <= 1) multiply to within (m + h)h + h of `exact` = x * q. */
  lemma ProductError(x: real, q: real, exact: real, monthly: real, factor: real, h: real, m: real, tolerance: real)
    requires 0.0 < q <= 1.0 && 0.0 <= h && -m <= x <= m && exact == x * q
    requires Within(monthly, x, h) && Within(factor, q, h)
    requires (m + h) * h + h * 1.0 <= tolerance
    ensures Within(monthly * factor, exact, tolerance)
  {
    assert monthly * factor - exact == monthly * (factor - q) + (monthly - x) * q;
    ProductBound(monthly, factor - q, m + h, h);
    ProductBound(monthly - x, q, h, 1.0);
    AddBounds(monthly * (factor - q), (monthly - x) * q, (m + h) * h, h * 1.0, tolerance);
  }

  /** Dividing by 12 and scaling by 12 / ppy divides by ppy. */
  lemma QuotientProduct(apr: real, ppy: real)
    requires ppy > 0.0
    ensures (apr / 12.0) * (12.0 / ppy) == apr / ppy
  {
  }

  /** With at least 12 periods a year the factor 12 / ppy is in (0, 1]. */
  lemma QuotientAtMostOne(ppy: real)
    requires ppy >= 12.0
    ensures 0.0 < 12.0 / ppy <= 1.0
  {
  }

  /** The error terms of `ProductError` fit in 2h(1 + magnitude). */
  lemma SmallErrorBound(magnitude: real, h: real, m: real, tolerance: real)
    requires magnitude >= 0.0 && 0.0 <= h <= 1.0
    requires m == magnitude / 12.0 && tolerance == 2.0 * h * (1.0 + magnitude)
    ensures (m + h) * h + h * 1.0 <= tolerance
  {
    assert tolerance == 2.0 * h + 2.0 * (magnitude * h);
    assert (m + h) * h == m * h + h * h;
    assert h * h <= h;
    assert 0.0 <= m * h <= magnitude * h;
    assert (m + h) * h + h * 1.0 <= magnitude * h + h + h;
  }

  /** Bounds on two errors add up to a bound on their sum. */
  lemma AddBounds(e1: real, e2: real, b1: real, b2: real, total: real)
    requires -b1 <= e1 <= b1 && -b2 <= e2 <= b2 && b1 + b2 <= total
    ensures -total <= e1 + e2 <= total
  {
  }

  /** 6% APR paid monthly is 0.005 per month. */
  lemma SixPercentMonthly(floatRate: NonNegReal)
    ensures PeriodicRate(Some(6.0), Monthly, NominalMonthly, floatRate) == 0.005
  {
    assert Pow10(12) == 1_000_000_000_000;
    RoundExact(6.0 / 100.0, 12, 60_000_000_000);
    assert AnnualRate(6.0) == 0.06;
    MonthlyPaymentsUseMonthlyRate(6.0, floatRate);
    assert Pow10(20) == 100_000_000_000_000_000_000;
    RoundExact(0.06 / 12.0, 20, 500_000_000_000_000_000);
  }
}
