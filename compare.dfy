/** `compare(a, b)`: two loan setups calculated side by side, with the
    differences in payment, in total interest and in the number of periods. */
module Comparison {
  import opened Money
  import opened Rates
  import opened Payment
  import opened Schedule
  import opened Loan

  /** Both results and A minus B of the periodic payment, of the total
      interest and of the schedule length (`monthsSaved` counts periods,
      whatever their frequency). */
  datatype ComparisonResult<D> = ComparisonResult(
    a: LoanResult<D>,
    b: LoanResult<D>,
    paymentDiff: int,
    totalInterestDiff: int,
    monthsSaved: int)

  /** The comparison of two calculations: A's failure first, then B's,
      otherwise both outcomes and A minus B of the payment, the total interest
      and the schedule length. */
  function Combine<D>(ra: Result<LoanResult<D>>, rb: Result<LoanResult<D>>): (res: Result<ComparisonResult<D>>)
    ensures res.Failure? <==> ra.Failure? || rb.Failure?
    ensures ra.Failure? ==> res.error == ra.error
    ensures ra.Success? && rb.Failure? ==> res.error == rb.error
    ensures res.Success? ==>
      res.value.a == ra.value && res.value.b == rb.value &&
      res.value.a.periodicPayment == res.value.b.periodicPayment + res.value.paymentDiff &&
      res.value.a.totalInterest == res.value.b.totalInterest + res.value.totalInterestDiff &&
      |res.value.a.schedule| == |res.value.b.schedule| + res.value.monthsSaved
  {
    if ra.Failure? then Failure(ra.error)
    else if rb.Failure? then Failure(rb.error)
    else
      Success(ComparisonResult(ra.value, rb.value,
                               ra.value.periodicPayment - rb.value.periodicPayment,
                               ra.value.totalInterest - rb.value.totalInterest,
                               |ra.value.schedule| - |rb.value.schedule|))
  }

  /** `compare(a, b)` on values. Each setup has its own double-computed
      rate. */
  function CompareSpec<D>(a: LoanInput<D>, b: LoanInput<D>, rateA: NonNegReal, rateB: NonNegReal,
                          nextDue: (D, Frequency) -> D): (res: Result<ComparisonResult<D>>)
    ensures res.Failure? <==> !Valid(a) || !Valid(b)
    ensures !Valid(a) ==> res == Failure(Validate(a).value)
    ensures Valid(a) && !Valid(b) ==> res == Failure(Validate(b).value)
  {
    Combine(Calculate(a, rateA, nextDue), Calculate(b, rateB, nextDue))
  }

  /** `compare(a, b)`: calculates A, then B (an input error in either is
      the call's failure), and combines them. The differences of two cent
      amounts already have two decimals, so their `setScale(2, HALF_UP)`
      changes nothing. */
  method Compare<D>(a: LoanInput<D>, b: LoanInput<D>, rateA: NonNegReal, rateB: NonNegReal,
                    nextDue: (D, Frequency) -> D)
    returns (res: Result<ComparisonResult<D>>)
    ensures res == CompareSpec(a, b, rateA, rateB, nextDue)
  {
    var ra := CalculateLoan(a, rateA, nextDue);
    if ra.Failure? {
      return Failure(ra.error);
    }
    var rb := CalculateLoan(b, rateB, nextDue);
    if rb.Failure? {
      return Failure(rb.error);
    }
    return Combine(ra, rb);
  }

  /** Swapping the two setups swaps the results and negates every
      difference. */
  lemma CompareSwapped<D>(a: LoanInput<D>, b: LoanInput<D>, rateA: NonNegReal, rateB: NonNegReal,
                          nextDue: (D, Frequency) -> D)
    requires Valid(a) && Valid(b)
    ensures var ab, ba := CompareSpec(a, b, rateA, rateB, nextDue), CompareSpec(b, a, rateB, rateA, nextDue);
      ab.Success? && ba.Success? &&
      ab.value.a == ba.value.b && ab.value.b == ba.value.a &&
      ab.value.paymentDiff == -ba.value.paymentDiff &&
      ab.value.totalInterestDiff == -ba.value.totalInterestDiff &&
      ab.value.monthsSaved == -ba.value.monthsSaved
  {
  }

  /** A valid setup compared with itself differs in nothing. */
  lemma CompareWithItself<D>(a: LoanInput<D>, rate: NonNegReal, nextDue: (D, Frequency) -> D)
    requires Valid(a)
    ensures var res := CompareSpec(a, a, rate, rate, nextDue);
      res.Success? && res.value.a == res.value.b &&
      res.value.paymentDiff == 0 && res.value.totalInterestDiff == 0 && res.value.monthsSaved == 0
  {
  }

  /** The interest of a loan at a rate that is not negative accrues
      monotonically. */
  lemma InterestAccruesMonotonically(r: real)
    requires r >= 0.0
    ensures forall x, y :: 0 <= x <= y ==> 0 <= InterestAt(r)(x) <= InterestAt(r)(y)
  {
    forall x: int, y: int | 0 <= x <= y
      ensures 0 <= InterestAt(r)(x) <= InterestAt(r)(y)
    {
      InterestRounding(x, r);
      InterestMonotone(x, y, r);
    }
  }

  /** The setup `a` with the extra per period and the lump sum replaced. */
  function WithExtras<D>(a: LoanInput<D>, extraEach: int, lump: int): LoanInput<D> {
    a.(extraPerPeriod := Some(extraEach), extraLumpSum := Some(lump))
  }

  /** Paying at least as much extra every period (the lump sum counting in the
      first) leaves the periodic payment alone and never takes more periods
      or charges more interest: comparing the setup with its faster version
      saves a non-negative number of periods and of interest. */
  lemma ExtraPaymentsSave<D>(a: LoanInput<D>, extraEach: int, lump: int, rate: NonNegReal,
                             nextDue: (D, Frequency) -> D)
    requires Valid(a)
    requires extraEach >= Safe(a.extraPerPeriod)
    requires extraEach + lump >= Safe(a.extraPerPeriod) + Safe(a.extraLumpSum)
    ensures var res := CompareSpec(a, WithExtras(a, extraEach, lump), rate, rate, nextDue);
      res.Success? && res.value.paymentDiff == 0 &&
      res.value.monthsSaved >= 0 && res.value.totalInterestDiff >= 0
  {
    var b := WithExtras(a, extraEach, lump);
    assert Valid(b);
    FasterOutcome(a, b, rate, nextDue);
  }

  /** The outcomes behind `ExtraPaymentsSave`: a setup `b` that differs from
      `a` only in paying at least as much extra has the same periodic payment,
      no more rows and no more total interest. */
  lemma FasterOutcome<D>(a: LoanInput<D>, b: LoanInput<D>, rate: NonNegReal, nextDue: (D, Frequency) -> D)
    requires Valid(a) && Valid(b)
    requires b == WithExtras(a, Safe(b.extraPerPeriod), Safe(b.extraLumpSum))
    requires Safe(b.extraPerPeriod) >= Safe(a.extraPerPeriod)
    requires Safe(b.extraPerPeriod) + Safe(b.extraLumpSum) >= Safe(a.extraPerPeriod) + Safe(a.extraLumpSum)
    ensures var outA, outB := Outcome(a, rate, nextDue), Outcome(b, rate, nextDue);
      outB.periodicPayment == outA.periodicPayment &&
      |outB.schedule| <= |outA.schedule| && outB.totalInterest <= outA.totalInterest
  {
    FasterRaw(a, b, rate, nextDue);
    PenniesAdjustedFrame(RawSchedule(a, rate, nextDue));
    PenniesAdjustedFrame(RawSchedule(b, rate, nextDue));
  }

  /** The period loop behind `FasterOutcome`: the same base payment, and no
      more rows and no more interest before the last-row cleanup. */
  lemma FasterRaw<D>(a: LoanInput<D>, b: LoanInput<D>, rate: NonNegReal, nextDue: (D, Frequency) -> D)
    requires Valid(a) && Valid(b)
    requires b == WithExtras(a, Safe(b.extraPerPeriod), Safe(b.extraLumpSum))
    requires Safe(b.extraPerPeriod) >= Safe(a.extraPerPeriod)
    requires Safe(b.extraPerPeriod) + Safe(b.extraLumpSum) >= Safe(a.extraPerPeriod) + Safe(a.extraLumpSum)
    ensures BaseOf(b, rate) == BaseOf(a, rate)
    ensures var rawA, rawB := RawSchedule(a, rate, nextDue), RawSchedule(b, rate, nextDue);
      |rawB| <= |rawA| && TotalInterestOf(rawB) <= TotalInterestOf(rawA)
  {
    var slow, fast := PlanOf(a, rate), PlanOf(b, rate);
    assert PresentValue(b) == PresentValue(a) && RateOf(b, rate) == RateOf(a, rate) &&
           PeriodsOf(b) == PeriodsOf(a);
    assert PaysFaster(fast, slow);
    InterestAccruesMonotonically(RateOf(a, rate));
    assert AccruesMonotonically(slow);
    var due := nextDue(a.startDate, a.frequency);
    SimulateFaster(fast, slow, nextDue, a.frequency, PresentValue(b), PresentValue(a), 0, due, due);
  }
}
