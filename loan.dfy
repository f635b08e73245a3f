/** The loan engine: the input and result records, input validation and
    `calculateLoan`, which turns a loan description into its periodic payment,
    its amortization schedule and its totals. Amounts are in cents. */
module Loan {
  import opened Money
  import opened Rates
  import opened Payment
  import opened Schedule

  /** Everything a calculation reads. Money fields that may be omitted are
      options; `startDate` has the caller's date type `D`. The rounding mode
      is always HALF_UP here. */
  datatype LoanInput<D> = LoanInput(
    principal: Option<int>,
    aprPercent: Option<real>,
    termMonths: Int32,
    frequency: Frequency,
    startDate: D,
    extraPerPeriod: Option<int>,
    extraLumpSum: Option<int>,
    financeFees: bool,
    originationFee: Option<int>,
    closingCosts: Option<int>,
    includeEscrow: bool,
    escrowPerPeriod: Option<int>,
    compounding: Compounding)

  /** What a calculation returns. `periodicPayment` includes escrow. */
  datatype LoanResult<D> = LoanResult(
    periodicPayment: int,
    payoffDate: D,
    totalPaid: int,
    totalInterest: int,
    warnings: seq<Warning>,
    schedule: seq<PaymentRow<D>>)

  /** The three `IllegalArgumentException`s of the input checks. */
  datatype ValidationError = PrincipalNotPositive | AprNegative | TermNotPositive

  datatype Result<T> = Success(value: T) | Failure(error: ValidationError)

  /** The one warning a calculation can raise: the negative-amortization
      guard replaced the base payment. */
  datatype Warning = PaymentTooLow {
    function Message(): string {
      "Payment is too low and would cause the balance to grow. Minimum adjusted."
    }
  }

  /** The first input check that fails, if any: the principal must be present
      and positive, the APR present and not negative, the term positive. */
  function Validate<D>(input: LoanInput<D>): (e: Option<ValidationError>)
    ensures e.None? <==>
      input.principal.Some? && input.principal.value > 0 &&
      input.aprPercent.Some? && input.aprPercent.value >= 0.0 &&
      input.termMonths > 0
    ensures e == Some(PrincipalNotPositive) <==> input.principal.None? || input.principal.value <= 0
    ensures e == Some(AprNegative) <==>
      input.principal.Some? && input.principal.value > 0 &&
      (input.aprPercent.None? || input.aprPercent.value < 0.0)
    ensures e == Some(TermNotPositive) <==>
      input.principal.Some? && input.principal.value > 0 &&
      input.aprPercent.Some? && input.aprPercent.value >= 0.0 &&
      input.termMonths <= 0
  {
    if input.principal.None? || input.principal.value <= 0 then Some(PrincipalNotPositive)
    else if input.aprPercent.None? || input.aprPercent.value < 0.0 then Some(AprNegative)
    else if input.termMonths <= 0 then Some(TermNotPositive)
    else None
  }

  predicate Valid<D>(input: LoanInput<D>) {
    Validate(input).None?
  }

  /** `safe(x)`: an omitted amount is zero. */
  function Safe(x: Option<int>): int {
    if x.None? then 0 else x.value
  }

  /** Origination fee plus closing costs. */
  function Fees<D>(input: LoanInput<D>): int {
    Safe(input.originationFee) + Safe(input.closingCosts)
  }

  /** The amount amortized: the principal, plus the fees when they are
      financed. */
  function PresentValue<D>(input: LoanInput<D>): int
    requires Valid(input)
  {
    if input.financeFees then input.principal.value + Fees(input) else input.principal.value
  }

  /** The escrow added to every period, when escrow is on. */
  function EscrowOf<D>(input: LoanInput<D>): int {
    if input.includeEscrow then Safe(input.escrowPerPeriod) else 0
  }

  /** The per-period rate of a loan. */
  function RateOf<D>(input: LoanInput<D>, floatRate: NonNegReal): real {
    PeriodicRate(input.aprPercent, input.frequency, input.compounding, floatRate)
  }

  /** The number of payment periods of a loan. */
  function PeriodsOf<D>(input: LoanInput<D>): Int32
    requires Valid(input)
  {
    PeriodCount(input.termMonths, input.frequency)
  }

  /** The interest charged on a balance at rate `r`. */
  function InterestAt(r: real): int -> int {
    balance => Interest(balance, r)
  }

  /** The base payment of a valid loan, and whether the guard raised it. */
  function BaseOf<D>(input: LoanInput<D>, floatRate: NonNegReal): BasePayment
    requires Valid(input)
  {
    BasePaymentFor(PresentValue(input), RateOf(input, floatRate), PeriodsOf(input))
  }

  /** What the period loop of a valid loan reads. */
  function PlanOf<D>(input: LoanInput<D>, floatRate: NonNegReal): Plan
    requires Valid(input)
  {
    Plan(BaseOf(input, floatRate).amount, InterestAt(RateOf(input, floatRate)), PeriodsOf(input),
         Safe(input.extraPerPeriod), Safe(input.extraLumpSum), EscrowOf(input))
  }

  /** The rows the period loop appends, before the penny cleanup. The first
      due date is one step after the start date. */
  function RawSchedule<D>(input: LoanInput<D>, floatRate: NonNegReal, nextDue: (D, Frequency) -> D): seq<PaymentRow<D>>
    requires Valid(input)
  {
    Simulate(PlanOf(input, floatRate), nextDue, input.frequency, PresentValue(input), 0,
             nextDue(input.startDate, input.frequency))
  }

  /** The due date of the last row, or the start date when there is none. */
  function PayoffDate<D>(rows: seq<PaymentRow<D>>, startDate: D): D {
    if rows == [] then startDate else rows[|rows| - 1].dueDate
  }

  /** What `calculateLoan` returns for a valid loan: the cleaned-up
      schedule with the payment, the payoff date (the last row's due date,
      or the start date when there is no row), the totals (summed before the
      cleanup, up-front fees added to the cash) and the guard's warning. */
  function Outcome<D>(input: LoanInput<D>, floatRate: NonNegReal, nextDue: (D, Frequency) -> D): LoanResult<D>
    requires Valid(input)
  {
    var base := BaseOf(input, floatRate);
    var raw := RawSchedule(input, floatRate, nextDue);
    var rows := PenniesAdjusted(raw);
    LoanResult(
      base.amount + EscrowOf(input),
      PayoffDate(rows, input.startDate),
      TotalCashOf(raw) + (if input.financeFees then 0 else Fees(input)),
      TotalInterestOf(raw),
      if base.adjusted then [PaymentTooLow] else [],
      rows)
  }

  /** The outcome of a valid loan, from its base payment and raw schedule. */
  lemma OutcomeOf<D>(input: LoanInput<D>, floatRate: NonNegReal, nextDue: (D, Frequency) -> D,
                     base: BasePayment, raw: seq<PaymentRow<D>>)
    requires Valid(input)
    requires base == BaseOf(input, floatRate) && raw == RawSchedule(input, floatRate, nextDue)
    ensures Outcome(input, floatRate, nextDue) == LoanResult(
      base.amount + EscrowOf(input),
      PayoffDate(PenniesAdjusted(raw), input.startDate),
      TotalCashOf(raw) + (if input.financeFees then 0 else Fees(input)),
      TotalInterestOf(raw),
      if base.adjusted then [PaymentTooLow] else [],
      PenniesAdjusted(raw))
  {
  }

  /** `calculateLoan(in)` on values: the failing input check, or the
      outcome. */
  function Calculate<D>(input: LoanInput<D>, floatRate: NonNegReal, nextDue: (D, Frequency) -> D): (res: Result<LoanResult<D>>)
    ensures res.Failure? <==> !Valid(input)
    ensures res.Failure? ==> Validate(input) == Some(res.error)
  {
    if Valid(input) then Success(Outcome(input, floatRate, nextDue)) else Failure(Validate(input).value)
  }

  /** The base-payment step of `calculateLoan`: `pv / n` to the cent at rate
      zero; otherwise r·PV / (1 − pow(1 + r, −n)) divided out to 10 places and
      set to cents, raised to the first period's interest plus a cent (with a
      warning) when it does not exceed that interest. */
  method SolveBasePayment(pv: int, r: real, n: Int32) returns (basePayment: int, warned: bool)
    requires r >= 0.0 && n >= 1
    ensures BasePayment(basePayment, warned) == BasePaymentFor(pv, r, n)
  {
    warned := false;
    if r == 0.0 {
      basePayment := Cents(Dollars(pv) / n as real);
    } else {
      var onePlusR := 1.0 + r;
      var power := IntPow(onePlusR, -n);
      PowerAboveOne(onePlusR, n);
      assert power == Some(1.0 / Power(onePlusR, n));
      var denom := 1.0 - power.value;
      var num := r * Dollars(pv);
      assert num / denom == AnnuityPayment(Dollars(pv), r, n);
      basePayment := Cents(Scaled(num / denom, 10));
      assert basePayment == FormulaPayment(pv, r, n);
      var firstInterest := Interest(pv, r);
      if basePayment <= firstInterest {
        warned := true;
        basePayment := firstInterest + 1;
      }
    }
  }

  lemma AppendAssociates<T>(front: seq<T>, x: T, back: seq<T>)
    ensures (front + [x]) + back == front + ([x] + back)
  {
  }

  /** One pass of the period loop's body on the balance it opens with:
      the period's interest, the principal due (the base payment less the
      interest, never below zero), the extra (with the lump in period 1), the
      principal applied (capped at the balance) and the row it records. */
  method ApplyPeriod<D>(plan: Plan, p: int, balance: int, due: D)
    returns (interest: int, principalApplied: int, row: PaymentRow<D>)
    ensures row == RowFor(plan, p, balance, due)
    ensures interest == row.interestPortion && principalApplied == PrincipalApplied(plan, p, balance)
    ensures CashOf(row) == interest + principalApplied + plan.escrow
  {
    interest := plan.interest(balance);
    var principalDue := Max(plan.basePayment - interest, 0);
    var extra := plan.extraEach;
    if p == 1 {
      extra := extra + plan.lump;
    }
    principalApplied := Min(principalDue + extra, balance);
    row := PaymentRow(p, due, plan.basePayment, interest, principalApplied - extra, extra,
                      plan.escrow, Max(balance - principalApplied, 0));
  }

  /** One period of the loop: the rows appended so far, the period's row and
      the rows still to come make up the whole schedule. */
  lemma PeriodStep<D>(plan: Plan, nextDue: (D, Frequency) -> D, freq: Frequency,
                      before: seq<PaymentRow<D>>, opening: int, p: nat, dueBefore: D,
                      row: PaymentRow<D>, balance: int, due: D, whole: seq<PaymentRow<D>>)
    requires before + Simulate(plan, nextDue, freq, opening, p, dueBefore) == whole
    requires Outstanding(opening) && p < plan.periods
    requires row == RowFor(plan, p + 1, opening, dueBefore)
    requires balance == opening - PrincipalApplied(plan, p + 1, opening)
    requires due == if Outstanding(balance) then nextDue(dueBefore, freq) else dueBefore
    ensures (before + [row]) + Simulate(plan, nextDue, freq, balance, p + 1, due) == whole
  {
    var later := Simulate(plan, nextDue, freq, balance, p + 1, due);
    assert Simulate(plan, nextDue, freq, opening, p, dueBefore) == [row] + later;
    AppendAssociates(before, row, later);
  }

  /** The period loop of `calculateLoan`: while the balance is outstanding
      and periods remain, charge the period's interest, apply the principal
      due plus the extra (the lump in period 1 only) up to the balance, add
      up the cash and the interest, append the row, and advance the due date
      while the loan stays outstanding. */
  method RunPeriods<D>(plan: Plan, nextDue: (D, Frequency) -> D, freq: Frequency, pv: int, firstDue: D)
    returns (schedule: ScheduleList<D>, totalPaid: int, totalInterest: int)
    ensures fresh(schedule)
    ensures schedule.rows == Simulate(plan, nextDue, freq, pv, 0, firstDue)
    ensures totalPaid == TotalCashOf(schedule.rows)
    ensures totalInterest == TotalInterestOf(schedule.rows)
  {
    schedule := new ScheduleList<D>();
    var balance := pv;
    var due := firstDue;
    totalPaid := 0;
    totalInterest := 0;
    var p: nat := 0;
    ghost var whole := Simulate(plan, nextDue, freq, pv, 0, firstDue);
    ghost var rows: seq<PaymentRow<D>> := [];
    while Outstanding(balance) && p < plan.periods
      invariant p <= plan.periods
      invariant schedule.rows == rows
      invariant rows + Simulate(plan, nextDue, freq, balance, p, due) == whole
      invariant totalPaid == TotalCashOf(rows)
      invariant totalInterest == TotalInterestOf(rows)
      decreases plan.periods - p
    {
      ghost var before := rows;
      ghost var opening := balance;
      ghost var dueBefore := due;
      ghost var pBefore := p;
      p := p + 1;
      var interest, principalApplied, row := ApplyPeriod(plan, p, balance, due);
      totalPaid := totalPaid + (interest + principalApplied + plan.escrow);
      totalInterest := totalInterest + interest;
      balance := balance - principalApplied;
      schedule.Add(row);
      rows := rows + [row];
      TotalsAppend(before, row);
      if Outstanding(balance) {
        due := nextDue(due, freq);
      }
      PeriodStep(plan, nextDue, freq, before, opening, pBefore, dueBefore, row, balance, due, whole);
    }
  }

  /** `calculateLoan(in)`: validate, derive the present value, the period
      count and the rate, solve for the base payment, run the period loop,
      clean up the last row, and package the totals. */
  method CalculateLoan<D>(input: LoanInput<D>, floatRate: NonNegReal, nextDue: (D, Frequency) -> D)
    returns (res: Result<LoanResult<D>>)
    ensures res == Calculate(input, floatRate, nextDue)
  {
    if input.principal.None? || input.principal.value <= 0 {
      return Failure(PrincipalNotPositive);
    }
    if input.aprPercent.None? || input.aprPercent.value < 0.0 {
      return Failure(AprNegative);
    }
    if input.termMonths <= 0 {
      return Failure(TermNotPositive);
    }
    var fees := Safe(input.originationFee) + Safe(input.closingCosts);
    var pv := if input.financeFees then input.principal.value + fees else input.principal.value;
    var n := PeriodCount(input.termMonths, input.frequency);
    var r := PeriodicRate(input.aprPercent, input.frequency, input.compounding, floatRate);
    var escrow := if input.includeEscrow then Safe(input.escrowPerPeriod) else 0;
    var extraEach := Safe(input.extraPerPeriod);
    var lump := Safe(input.extraLumpSum);

    var basePayment, warned := SolveBasePayment(pv, r, n);
    var warnings: seq<Warning> := if warned then [PaymentTooLow] else [];

    assert Valid(input) && pv == PresentValue(input) && fees == Fees(input);
    assert BasePayment(basePayment, warned) == BaseOf(input, floatRate);
    var plan := Plan(basePayment, InterestAt(r), n, extraEach, lump, escrow);
    assert plan == PlanOf(input, floatRate);
    var schedule, totalPaid, totalInterest :=
      RunPeriods(plan, nextDue, input.frequency, pv, nextDue(input.startDate, input.frequency));
    ghost var raw := schedule.rows;
    assert raw == RawSchedule(input, floatRate, nextDue);
    AdjustLastRowForPennies(schedule);
    var rows := schedule.rows;
    var payoffDate := PayoffDate(rows, input.startDate);
    if !input.financeFees {
      totalPaid := totalPaid + fees;
    }
    OutcomeOf(input, floatRate, nextDue, BasePayment(basePayment, warned), raw);
    assert rows == PenniesAdjusted(raw);
    assert escrow == EscrowOf(input);
    var answer := LoanResult(basePayment + escrow, payoffDate, totalPaid, totalInterest, warnings, rows);
    assert answer.totalPaid == TotalCashOf(raw) + (if input.financeFees then 0 else Fees(input));
    assert answer == Outcome(input, floatRate, nextDue);
    return Success(answer);
  }
}
