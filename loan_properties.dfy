/** What `calculateLoan` promises about its result: the shape of the
    schedule, the totals, the zero-rate and negative-amortization cases, how
    the loan ends, the due dates, and two worked examples. */
module LoanProperties {
  import opened Money
  import opened Rates
  import opened Payment
  import opened Schedule
  import opened Loan

  /** Row `i` of the schedule of a valid loan, against the balance it starts
      from (the present value for the first row, the previous row's end
      balance after that): that balance was positive; the row carries period
      number `i + 1`, the interest on that balance, the extra (with the lump in
      the first row only) and the escrow; the principal it applies is the base
      payment less the interest (never below zero) plus the extra, capped at
      the balance, and for the last row also the folded penny; and what it
      applies plus its end balance is the balance it started from. */
  lemma RowFacts<D>(input: LoanInput<D>, floatRate: NonNegReal, nextDue: (D, Frequency) -> D, i: nat)
    requires Valid(input) && i < |Outcome(input, floatRate, nextDue).schedule|
    ensures var rows := Outcome(input, floatRate, nextDue).schedule;
      var opening := BalanceBefore(rows, PresentValue(input), i);
      var base := BaseOf(input, floatRate).amount;
      var interest := Interest(opening, RateOf(input, floatRate));
      var residual := if i == |rows| - 1 then FoldedResidual(RawSchedule(input, floatRate, nextDue)) else 0;
      opening > 0 &&
      rows[i].periodIndex == i + 1 &&
      rows[i].interestPortion == interest &&
      rows[i].extraApplied == Safe(input.extraPerPeriod) + (if i == 0 then Safe(input.extraLumpSum) else 0) &&
      rows[i].escrowApplied == EscrowOf(input) &&
      rows[i].payment == base + residual &&
      rows[i].principalPortion + rows[i].extraApplied
        == Min(Max(base - interest, 0) + rows[i].extraApplied, opening) + residual &&
      rows[i].principalPortion + rows[i].extraApplied + rows[i].endBalance == opening &&
      rows[i].endBalance >= 0
  {
    var pv, plan := PresentValue(input), PlanOf(input, floatRate);
    var raw := RawSchedule(input, floatRate, nextDue);
    var rows := PenniesAdjusted(raw);
    assert Outcome(input, floatRate, nextDue).schedule == rows;
    PenniesAdjustedFrame(raw);
    var opening := BalanceBefore(raw, pv, i);
    RawRowFacts(input, floatRate, nextDue, i);
    var r := raw[i];
    assert r.interestPortion == plan.interest(opening) == Interest(opening, RateOf(input, floatRate));
    assert r.extraApplied == ExtraFor(plan, i + 1);
    assert r.principalPortion + r.extraApplied == PrincipalApplied(plan, i + 1, opening);
    if i == |raw| - 1 {
      PenniesAdjustedLast(raw);
    } else {
      assert rows[i] == r;
    }
    assert BalanceBefore(rows, pv, i) == opening;
  }

  /** Row `i` of the schedule before the penny cleanup is the row the period
      loop computes for period `i + 1` from a positive balance, and it leaves
      that balance less the principal applied. */
  lemma RawRowFacts<D>(input: LoanInput<D>, floatRate: NonNegReal, nextDue: (D, Frequency) -> D, i: nat)
    requires Valid(input) && i < |RawSchedule(input, floatRate, nextDue)|
    ensures var raw, plan := RawSchedule(input, floatRate, nextDue), PlanOf(input, floatRate);
      var opening := BalanceBefore(raw, PresentValue(input), i);
      opening > 0 && raw[i] == RowFor(plan, i + 1, opening, raw[i].dueDate) &&
      raw[i].endBalance == opening - PrincipalApplied(plan, i + 1, opening)
  {
    var plan := PlanOf(input, floatRate);
    var pv := PresentValue(input);
    var raw := RawSchedule(input, floatRate, nextDue);
    var first := nextDue(input.startDate, input.frequency);
    SimulateSteps(plan, nextDue, input.frequency, pv, 0, first);
    StepsAt(plan, raw, pv, 0, i);
    RowBalance(plan, i + 1, BalanceBefore(raw, pv, i), raw[i].dueDate);
  }

  /** Every row of a valid loan, as `RowFacts` states for one row. */
  lemma ScheduleRows<D>(input: LoanInput<D>, floatRate: NonNegReal, nextDue: (D, Frequency) -> D)
    requires Valid(input)
    ensures var rows := Outcome(input, floatRate, nextDue).schedule;
      var base := BaseOf(input, floatRate).amount;
      var folded := FoldedResidual(RawSchedule(input, floatRate, nextDue));
      forall i :: 0 <= i < |rows| ==>
        var opening := BalanceBefore(rows, PresentValue(input), i);
        var interest := Interest(opening, RateOf(input, floatRate));
        var residual := if i == |rows| - 1 then folded else 0;
        opening > 0 &&
        rows[i].periodIndex == i + 1 &&
        rows[i].interestPortion == interest &&
        rows[i].extraApplied == Safe(input.extraPerPeriod) + (if i == 0 then Safe(input.extraLumpSum) else 0) &&
        rows[i].escrowApplied == EscrowOf(input) &&
        rows[i].payment == base + residual &&
        rows[i].principalPortion + rows[i].extraApplied
          == Min(Max(base - interest, 0) + rows[i].extraApplied, opening) + residual &&
        rows[i].principalPortion + rows[i].extraApplied + rows[i].endBalance == opening &&
        rows[i].endBalance >= 0
  {
    var rows := Outcome(input, floatRate, nextDue).schedule;
    forall i | 0 <= i < |rows|
      ensures var opening := BalanceBefore(rows, PresentValue(input), i);
        var base := BaseOf(input, floatRate).amount;
        var interest := Interest(opening, RateOf(input, floatRate));
        var residual := if i == |rows| - 1 then FoldedResidual(RawSchedule(input, floatRate, nextDue)) else 0;
        opening > 0 &&
        rows[i].periodIndex == i + 1 &&
        rows[i].interestPortion == interest &&
        rows[i].extraApplied == Safe(input.extraPerPeriod) + (if i == 0 then Safe(input.extraLumpSum) else 0) &&
        rows[i].escrowApplied == EscrowOf(input) &&
        rows[i].payment == base + residual &&
        rows[i].principalPortion + rows[i].extraApplied
          == Min(Max(base - interest, 0) + rows[i].extraApplied, opening) + residual &&
        rows[i].principalPortion + rows[i].extraApplied + rows[i].endBalance == opening &&
        rows[i].endBalance >= 0
    {
      RowFacts(input, floatRate, nextDue, i);
    }
  }

  /** How the schedule of a valid loan ends. It has at most one row per
      period and no row at all exactly when the amount amortized is not
      positive. Every row but the last leaves a positive balance; the last
      leaves zero, unless the period ceiling was reached with more than one
      cent still owed, which then stays as its end balance. */
  lemma ScheduleEnds<D>(input: LoanInput<D>, floatRate: NonNegReal, nextDue: (D, Frequency) -> D)
    requires Valid(input)
    ensures var rows := Outcome(input, floatRate, nextDue).schedule;
      |rows| <= PeriodsOf(input) &&
      (rows == [] <==> PresentValue(input) <= 0) &&
      (forall i :: 0 <= i < |rows| - 1 ==> rows[i].endBalance > 0) &&
      (rows != [] ==>
        rows[|rows| - 1].endBalance == 0 ||
        (|rows| == PeriodsOf(input) && rows[|rows| - 1].endBalance > 1))
  {
    var plan := PlanOf(input, floatRate);
    var pv := PresentValue(input);
    var first := nextDue(input.startDate, input.frequency);
    var raw := RawSchedule(input, floatRate, nextDue);
    var rows := PenniesAdjusted(raw);
    assert Outcome(input, floatRate, nextDue).schedule == rows;
    SimulatePeriods(plan, nextDue, input.frequency, pv, 0, first);
    SimulateStops(plan, nextDue, input.frequency, pv, 0, first);
    PenniesAdjustedFrame(raw);
    if rows != [] {
      PenniesAdjustedLast(raw);
      RowFacts(input, floatRate, nextDue, |rows| - 1);
    }
  }

  /** The first payment falls due one step after the start date, each later
      one a step after the one before, and the payoff date is the last due
      date (the start date when there is no row). */
  lemma DueDates<D>(input: LoanInput<D>, floatRate: NonNegReal, nextDue: (D, Frequency) -> D)
    requires Valid(input)
    ensures var res := Outcome(input, floatRate, nextDue);
      var rows := res.schedule;
      (rows != [] ==> rows[0].dueDate == nextDue(input.startDate, input.frequency)) &&
      (forall i :: 0 < i < |rows| ==> rows[i].dueDate == nextDue(rows[i - 1].dueDate, input.frequency)) &&
      res.payoffDate == (if rows == [] then input.startDate else rows[|rows| - 1].dueDate)
  {
    var plan := PlanOf(input, floatRate);
    var pv := PresentValue(input);
    var first := nextDue(input.startDate, input.frequency);
    var raw := RawSchedule(input, floatRate, nextDue);
    var rows := PenniesAdjusted(raw);
    assert Outcome(input, floatRate, nextDue).schedule == rows;
    SimulateDueDates(plan, nextDue, input.frequency, pv, 0, first);
    PenniesAdjustedFrame(raw);
    if |rows| > 1 {
      assert rows[|rows| - 2] == raw[|rows| - 2];
    }
  }

  /** The totals of a valid loan: the periodic payment is the base payment
      plus escrow; the total interest is the schedule's interest; the total
      paid is the cash the schedule records, less the penny folded into the
      last row, plus fees paid up front; and there is a warning exactly when
      the guard raised the payment. */
  lemma Totals<D>(input: LoanInput<D>, floatRate: NonNegReal, nextDue: (D, Frequency) -> D)
    requires Valid(input)
    ensures var res := Outcome(input, floatRate, nextDue);
      res.periodicPayment == BaseOf(input, floatRate).amount + EscrowOf(input) &&
      res.totalInterest == TotalInterestOf(res.schedule) &&
      res.totalPaid + FoldedResidual(RawSchedule(input, floatRate, nextDue))
        == TotalCashOf(res.schedule) + (if input.financeFees then 0 else Fees(input)) &&
      (res.warnings != [] <==> BaseOf(input, floatRate).adjusted)
  {
    PenniesAdjustedTotals(RawSchedule(input, floatRate, nextDue));
  }

  /** The total paid accounts for every cent: the interest, the escrow of
      every row, the principal the period loop repaid (the amount amortized
      less the balance the loop left), and the fees when paid up front. The
      penny the cleanup folds into the last row is not in it. */
  lemma TotalPaidAccounts<D>(input: LoanInput<D>, floatRate: NonNegReal, nextDue: (D, Frequency) -> D)
    requires Valid(input)
    ensures var res := Outcome(input, floatRate, nextDue);
      var pv := PresentValue(input);
      res.totalPaid == res.totalInterest + |res.schedule| * EscrowOf(input)
        + (pv - FinalBalance(RawSchedule(input, floatRate, nextDue), pv))
        + (if input.financeFees then 0 else Fees(input))
  {
    var pv := PresentValue(input);
    var raw := RawSchedule(input, floatRate, nextDue);
    var rows := Outcome(input, floatRate, nextDue).schedule;
    ScheduleRows(input, floatRate, nextDue);
    CashAccounts(rows, pv, EscrowOf(input));
    Totals(input, floatRate, nextDue);
    PenniesAdjustedFrame(raw);
    if raw != [] {
      PenniesAdjustedLast(raw);
    }
    assert FinalBalance(rows, pv) == FinalBalance(raw, pv) - FoldedResidual(raw);
  }

  /** An APR that rounds to zero charges no interest: no row has interest,
      the total interest is zero, there is no warning, and the base payment
      is the amount amortized divided by the number of periods, to the
      nearest cent. */
  lemma ZeroRate<D>(input: LoanInput<D>, floatRate: NonNegReal, nextDue: (D, Frequency) -> D)
    requires Valid(input) && RoundHalfUp(input.aprPercent.value / 100.0, 12) == 0
    ensures var res := Outcome(input, floatRate, nextDue);
      res.totalInterest == 0 && res.warnings == [] &&
      (forall i :: 0 <= i < |res.schedule| ==> res.schedule[i].interestPortion == 0) &&
      NearestHalfUp(res.periodicPayment - EscrowOf(input), PresentValue(input) as real / PeriodsOf(input) as real)
  {
    var res := Outcome(input, floatRate, nextDue);
    assert RateOf(input, floatRate) == 0.0;
    BasePaymentProperties(PresentValue(input), 0.0, PeriodsOf(input));
    forall i | 0 <= i < |res.schedule|
      ensures res.schedule[i].interestPortion == 0
    {
      RowFacts(input, floatRate, nextDue, i);
      InterestRounding(BalanceBefore(res.schedule, PresentValue(input), i), 0.0);
    }
    Totals(input, floatRate, nextDue);
    TotalInterestBounds(res.schedule);
  }

  /** At a positive rate the base payment always exceeds the first period's
      interest: the guard warns exactly when the formula payment would not,
      and then pays that interest plus one cent. */
  lemma PaymentExceedsFirstInterest<D>(input: LoanInput<D>, floatRate: NonNegReal, nextDue: (D, Frequency) -> D)
    requires Valid(input) && RateOf(input, floatRate) > 0.0
    ensures var res := Outcome(input, floatRate, nextDue);
      var firstInterest := Interest(PresentValue(input), RateOf(input, floatRate));
      res.periodicPayment - EscrowOf(input) > firstInterest &&
      (res.warnings != [] <==> FormulaPayment(PresentValue(input), RateOf(input, floatRate), PeriodsOf(input)) <= firstInterest) &&
      (res.warnings != [] ==> res.periodicPayment - EscrowOf(input) == firstInterest + 1)
  {
    BasePaymentProperties(PresentValue(input), RateOf(input, floatRate), PeriodsOf(input));
  }

  /** At a positive rate with no negative extras every row lowers the
      balance: the guard rules out negative amortization for the whole
      schedule, not only the first period. */
  lemma NoNegativeAmortization<D>(input: LoanInput<D>, floatRate: NonNegReal, nextDue: (D, Frequency) -> D)
    requires Valid(input) && RateOf(input, floatRate) > 0.0
    requires Safe(input.extraPerPeriod) >= 0 && Safe(input.extraLumpSum) >= 0
    ensures var rows := Outcome(input, floatRate, nextDue).schedule;
      forall i :: 0 <= i < |rows| ==> rows[i].endBalance < BalanceBefore(rows, PresentValue(input), i)
  {
    var r := RateOf(input, floatRate);
    var plan := PlanOf(input, floatRate);
    var pv := PresentValue(input);
    var first := nextDue(input.startDate, input.frequency);
    var raw := RawSchedule(input, floatRate, nextDue);
    var rows := PenniesAdjusted(raw);
    assert Outcome(input, floatRate, nextDue).schedule == rows;
    BasePaymentProperties(pv, r, PeriodsOf(input));
    forall b | 0 < b <= pv
      ensures plan.interest(b) < plan.basePayment
    {
      InterestMonotone(b, pv, r);
    }
    SimulateDecreases(plan, nextDue, input.frequency, pv, 0, first);
    PenniesAdjustedFrame(raw);
    forall i | 0 <= i < |rows|
      ensures rows[i].endBalance < BalanceBefore(rows, pv, i)
    {
      RowFacts(input, floatRate, nextDue, i);
      if i < |rows| - 1 {
        assert rows[i] == raw[i];
      } else {
        PenniesAdjustedLast(raw);
      }
      if i > 0 {
        assert rows[i - 1] == raw[i - 1];
      }
    }
  }

  /** Every optional amount left out behaves exactly as an explicit zero. */
  function WithZeros<D>(input: LoanInput<D>): LoanInput<D> {
    input.(extraPerPeriod := Some(Safe(input.extraPerPeriod)),
           extraLumpSum := Some(Safe(input.extraLumpSum)),
           originationFee := Some(Safe(input.originationFee)),
           closingCosts := Some(Safe(input.closingCosts)),
           escrowPerPeriod := Some(Safe(input.escrowPerPeriod)))
  }

  lemma OmittedAmountsAreZero<D>(input: LoanInput<D>, floatRate: NonNegReal, nextDue: (D, Frequency) -> D)
    ensures Calculate(WithZeros(input), floatRate, nextDue) == Calculate(input, floatRate, nextDue)
  {
    var zeros := WithZeros(input);
    assert Validate(zeros) == Validate(input);
    if Valid(input) {
      assert Fees(zeros) == Fees(input) && EscrowOf(zeros) == EscrowOf(input);
      assert PresentValue(zeros) == PresentValue(input);
      assert RateOf(zeros, floatRate) == RateOf(input, floatRate);
      assert PeriodsOf(zeros) == PeriodsOf(input);
      assert BaseOf(zeros, floatRate) == BaseOf(input, floatRate);
      assert PlanOf(zeros, floatRate) == PlanOf(input, floatRate);
      assert RawSchedule(zeros, floatRate, nextDue) == RawSchedule(input, floatRate, nextDue);
      assert Outcome(zeros, floatRate, nextDue) == Outcome(input, floatRate, nextDue);
    }
  }

  /** 10000.00 borrowed at 6% APR over 12 months, paid monthly with no
      fees, extras or escrow. */
  function SixPercentInput<D>(start: D): LoanInput<D> {
    LoanInput(Some(1000000), Some(6.0), 12, Monthly, start, None, None, false, None, None, false, None, NominalMonthly)
  }

  /** That loan pays 860.66 a period, with no warning, over twelve rows. The
      payment is rounded down from the exact annuity payment of 860.6643, so
      the twelfth row still leaves 0.04 owed, more than the cleanup folds in;
      the interest charged is 327.96, and the cash paid 12 × 860.66. */
  lemma SixPercentExample<D>(start: D, floatRate: NonNegReal, nextDue: (D, Frequency) -> D)
    ensures var res := Calculate(SixPercentInput(start), floatRate, nextDue);
      res.Success? && res.value.periodicPayment == 86066 && res.value.warnings == [] &&
      |res.value.schedule| == 12 && res.value.schedule[11].endBalance == 4 &&
      res.value.totalInterest == 32796 && res.value.totalPaid == 1032792
  {
    var input := SixPercentInput(start);
    assert Valid(input);
    SixPercentMonthly(floatRate);
    assert RateOf(input, floatRate) == 0.005;
    assert PeriodsOf(input) == 12 && PresentValue(input) == 1000000;
    SixPercentPayment();
    assert BaseOf(input, floatRate) == BasePayment(86066, false);
    var plan := PlanOf(input, floatRate);
    assert plan.interest == InterestAt(0.005);
    var raw := RawSchedule(input, floatRate, nextDue);
    SixPercentRawRows(plan, nextDue, input.frequency, nextDue(input.startDate, input.frequency));
    PenniesAdjustedLast(raw);
    PenniesAdjustedFrame(raw);
  }

  /** 0.22 borrowed at 0% over 5 months: the payment is 0.04, five payments
      leave 0.02 owed, which is more than the cleanup folds in, so the
      schedule ends on its fifth row with a non-zero balance. */
  function UnpaidResidualInput<D>(start: D): LoanInput<D> {
    LoanInput(Some(22), Some(0.0), 5, Monthly, start, None, None, false, None, None, false, None, NominalMonthly)
  }

  lemma UnpaidResidualExample<D>(start: D, floatRate: NonNegReal, nextDue: (D, Frequency) -> D)
    ensures var res := Calculate(UnpaidResidualInput(start), floatRate, nextDue);
      res.Success? && res.value.periodicPayment == 4 && |res.value.schedule| == 5 &&
      res.value.schedule[4].endBalance == 2 && res.value.totalInterest == 0 && res.value.totalPaid == 20
  {
    var input := UnpaidResidualInput(start);
    ResidualFigures(start, floatRate);
    ResidualOutcome(input, floatRate, nextDue);
  }

  /** The figures of `UnpaidResidualInput`: a valid loan of 0.22 over five
      periods at rate zero, with a base payment of 0.04 and no extras, escrow
      or fees. */
  lemma ResidualFigures<D>(start: D, floatRate: NonNegReal)
    ensures var input := UnpaidResidualInput(start);
      Valid(input) && RoundHalfUp(input.aprPercent.value / 100.0, 12) == 0 &&
      PresentValue(input) == 22 && PeriodsOf(input) == 5 && BaseOf(input, floatRate).amount == 4 &&
      Safe(input.extraPerPeriod) == 0 && Safe(input.extraLumpSum) == 0 && EscrowOf(input) == 0 &&
      !input.financeFees && Fees(input) == 0
  {
    var input := UnpaidResidualInput(start);
    assert Valid(input) && PresentValue(input) == 22;
    assert RoundHalfUp(0.0 / 100.0, 12) == 0;
    assert PeriodsOf(input) == 5;
    assert RateOf(input, floatRate) == 0.0;
    BasePaymentProperties(22, 0.0, 5);
    assert NearestHalfUp(4, 22.0 / 5.0);
    NearestHalfUpUnique(BaseOf(input, floatRate).amount, 4, 22.0 / 5.0);
  }

  /** The outcome of `UnpaidResidualExample`, for any loan with its figures. */
  lemma ResidualOutcome<D>(input: LoanInput<D>, floatRate: NonNegReal, nextDue: (D, Frequency) -> D)
    requires Valid(input) && RoundHalfUp(input.aprPercent.value / 100.0, 12) == 0
    requires PresentValue(input) == 22 && PeriodsOf(input) == 5 && BaseOf(input, floatRate).amount == 4
    requires Safe(input.extraPerPeriod) == 0 && Safe(input.extraLumpSum) == 0 && EscrowOf(input) == 0
    requires !input.financeFees && Fees(input) == 0
    ensures var res := Outcome(input, floatRate, nextDue);
      res.periodicPayment == 4 && |res.schedule| == 5 &&
      res.schedule[4].endBalance == 2 && res.totalInterest == 0 && res.totalPaid == 20
  {
    ResidualSchedule(input, floatRate, nextDue);
    ZeroRate(input, floatRate, nextDue);
    ResidualTotalPaid(input, floatRate, nextDue);
  }

  /** The total paid of `UnpaidResidualExample`, for any loan with its figures. */
  lemma ResidualTotalPaid<D>(input: LoanInput<D>, floatRate: NonNegReal, nextDue: (D, Frequency) -> D)
    requires Valid(input) && RoundHalfUp(input.aprPercent.value / 100.0, 12) == 0
    requires PresentValue(input) == 22 && PeriodsOf(input) == 5 && BaseOf(input, floatRate).amount == 4
    requires Safe(input.extraPerPeriod) == 0 && Safe(input.extraLumpSum) == 0 && EscrowOf(input) == 0
    requires !input.financeFees ==> Fees(input) == 0
    ensures Outcome(input, floatRate, nextDue).totalPaid == 20
  {
    var raw := RawSchedule(input, floatRate, nextDue);
    ResidualSchedule(input, floatRate, nextDue);
    ZeroRate(input, floatRate, nextDue);
    TotalPaidAccounts(input, floatRate, nextDue);
    assert FinalBalance(raw, 22) == 2;
  }

  /** The schedule of `UnpaidResidualExample`, for any loan with its figures:
      the loop's five rows, left as they are by the cleanup. */
  lemma ResidualSchedule<D>(input: LoanInput<D>, floatRate: NonNegReal, nextDue: (D, Frequency) -> D)
    requires Valid(input) && RoundHalfUp(input.aprPercent.value / 100.0, 12) == 0
    requires PresentValue(input) == 22 && PeriodsOf(input) == 5 && BaseOf(input, floatRate).amount == 4
    requires Safe(input.extraPerPeriod) == 0 && Safe(input.extraLumpSum) == 0
    ensures var raw := RawSchedule(input, floatRate, nextDue);
      Outcome(input, floatRate, nextDue).schedule == raw && |raw| == 5 && raw[4].endBalance == 2
  {
    var raw := RawSchedule(input, floatRate, nextDue);
    var plan := PlanOf(input, floatRate);
    assert RateOf(input, floatRate) == 0.0;
    forall b
      ensures plan.interest(b) == 0
    {
      InterestRounding(b, 0.0);
    }
    ResidualRawRows(plan, nextDue, input.frequency, nextDue(input.startDate, input.frequency));
    PenniesAdjustedLast(raw);
  }

  /** The loop's rows for the figures of `UnpaidResidualExample`: four cents
      a period from 0.22 leaves 0.02 after the fifth and last period. */
  lemma ResidualRawRows<D>(plan: Plan, nextDue: (D, Frequency) -> D, freq: Frequency, due: D)
    requires plan.basePayment == 4 && plan.periods == 5 && plan.extraEach == 0 && plan.lump == 0
    requires forall b :: plan.interest(b) == 0
    ensures var raw := Simulate(plan, nextDue, freq, 22, 0, due);
      |raw| == 5 && raw[4].endBalance == 2
  {
    var raw := Simulate(plan, nextDue, freq, 22, 0, due);
    SimulateSteps(plan, nextDue, freq, 22, 0, due);
    SimulateStops(plan, nextDue, freq, 22, 0, due);
    SimulatePeriods(plan, nextDue, freq, 22, 0, due);
    StepsAt(plan, raw, 22, 0, 0);
    assert raw[0].endBalance == 18;
    StepsAt(plan, raw, 22, 0, 1);
    assert raw[1].endBalance == 14;
    StepsAt(plan, raw, 22, 0, 2);
    assert raw[2].endBalance == 10;
    StepsAt(plan, raw, 22, 0, 3);
    assert raw[3].endBalance == 6;
    StepsAt(plan, raw, 22, 0, 4);
    assert raw[4].endBalance == 2;
  }

  /** Interest at 0.5% a period on `balance` cents is `interest` when
      balance·0.005 is less than half a cent from it. */
  lemma HalfPercentInterest(balance: int, interest: int)
    requires -0.5 < interest as real - balance as real * 0.005 < 0.5
    ensures Interest(balance, 0.005) == interest
  {
    assert Pow10(2) == 100;
    NearestHalfUpUnique(Interest(balance, 0.005), interest, Dollars(balance) * 0.005 * 100.0);
  }

  /** One row of the 860.66 plan at 0.5% a period, from an opening balance
      that covers the principal due: it charges `interest`, pays exactly the
      base payment in cash and lowers the balance by the principal due. */
  lemma HalfPercentRow<D>(plan: Plan, row: PaymentRow<D>, p: int, opening: int, interest: int)
    requires plan.basePayment == 86066 && plan.extraEach == 0 && plan.lump == 0 && plan.escrow == 0
    requires forall b :: plan.interest(b) == Interest(b, 0.005)
    requires row == RowFor(plan, p, opening, row.dueDate)
    requires -0.5 < interest as real - opening as real * 0.005 < 0.5
    requires 0 <= interest <= 86066 <= opening + interest
    ensures row.interestPortion == interest && row.endBalance == opening - (86066 - interest)
    ensures CashOf(row) == 86066
  {
    HalfPercentInterest(opening, interest);
    assert plan.interest(opening) == interest;
  }

  /** Row `i` of rows that follow one from another under the 860.66 plan at
      0.5% a period from 10000.00, and end at zero or after 12 rows, given
      the balance it opens with: it charges `interest` and pays 860.66, which
      the running totals of the rows before it gain, and it leaves a positive
      balance, so another row follows unless it is the twelfth. */
  lemma SixPercentAt<D>(plan: Plan, raw: seq<PaymentRow<D>>, i: nat, opening: int, interest: int,
                        interestBefore: int, cashBefore: int)
    requires plan.basePayment == 86066 && plan.extraEach == 0 && plan.lump == 0 && plan.escrow == 0
    requires forall b :: plan.interest(b) == Interest(b, 0.005)
    requires StepsFrom(plan, raw, 1000000, 0) && i < |raw| <= 12
    requires raw[|raw| - 1].endBalance == 0 || |raw| == 12
    requires BalanceBefore(raw, 1000000, i) == opening
    requires -0.5 < interest as real - opening as real * 0.005 < 0.5
    requires 0 <= interest <= 86066 < opening + interest
    requires TotalInterestOf(raw[..i]) == interestBefore && TotalCashOf(raw[..i]) == cashBefore
    ensures raw[i].endBalance == opening - (86066 - interest)
    ensures i + 1 < |raw| || i == 11
    ensures TotalInterestOf(raw[..i + 1]) == interestBefore + interest
    ensures TotalCashOf(raw[..i + 1]) == cashBefore + 86066
  {
    StepsAt(plan, raw, 1000000, 0, i);
    HalfPercentRow(plan, raw[i], i + 1, opening, interest);
    TotalsAppend(raw[..i], raw[i]);
    assert raw[..i + 1] == raw[..i] + [raw[i]];
  }

  /** Rows that follow one from another under that plan, at most 12 of them
      and ending at zero or after the twelfth: they are twelve, pay 860.66
      each, charge 327.96 of interest in all, and leave 0.04 owed. */
  lemma SixPercentRows<D>(plan: Plan, raw: seq<PaymentRow<D>>)
    requires plan.basePayment == 86066 && plan.extraEach == 0 && plan.lump == 0 && plan.escrow == 0
    requires forall b :: plan.interest(b) == Interest(b, 0.005)
    requires StepsFrom(plan, raw, 1000000, 0) && 1 <= |raw| <= 12
    requires raw[|raw| - 1].endBalance == 0 || |raw| == 12
    ensures |raw| == 12 && raw[11].endBalance == 4
    ensures TotalInterestOf(raw) == 32796 && TotalCashOf(raw) == 1032792
  {
    assert raw[..0] == [];
    SixPercentAt(plan, raw, 0, 1000000, 5000, 0, 0);
    SixPercentAt(plan, raw, 1, 918934, 4595, 5000, 86066);
    SixPercentAt(plan, raw, 2, 837463, 4187, 9595, 172132);
    SixPercentAt(plan, raw, 3, 755584, 3778, 13782, 258198);
    SixPercentAt(plan, raw, 4, 673296, 3366, 17560, 344264);
    SixPercentAt(plan, raw, 5, 590596, 2953, 20926, 430330);
    SixPercentAt(plan, raw, 6, 507483, 2537, 23879, 516396);
    SixPercentAt(plan, raw, 7, 423954, 2120, 26416, 602462);
    SixPercentAt(plan, raw, 8, 340008, 1700, 28536, 688528);
    SixPercentAt(plan, raw, 9, 255642, 1278, 30236, 774594);
    SixPercentAt(plan, raw, 10, 170854, 854, 31514, 860660);
    SixPercentAt(plan, raw, 11, 85642, 428, 32368, 946726);
    assert raw[..12] == raw;
  }

  /** The loop's rows for the figures of `SixPercentExample`: twelve rows
      paying 860.66 each, 327.96 of interest in all, after which 0.04 is
      still owed. */
  lemma SixPercentRawRows<D>(plan: Plan, nextDue: (D, Frequency) -> D, freq: Frequency, due: D)
    requires plan.basePayment == 86066 && plan.periods == 12 && plan.extraEach == 0 && plan.lump == 0 && plan.escrow == 0
    requires forall b :: plan.interest(b) == Interest(b, 0.005)
    ensures var raw := Simulate(plan, nextDue, freq, 1000000, 0, due);
      |raw| == 12 && raw[11].endBalance == 4 &&
      TotalInterestOf(raw) == 32796 && TotalCashOf(raw) == 1032792
  {
    var raw := Simulate(plan, nextDue, freq, 1000000, 0, due);
    SimulateSteps(plan, nextDue, freq, 1000000, 0, due);
    SimulateStops(plan, nextDue, freq, 1000000, 0, due);
    SimulatePeriods(plan, nextDue, freq, 1000000, 0, due);
    SixPercentRows(plan, raw);
  }
}
