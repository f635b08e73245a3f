# Loan amortization engine

A Dafny model of the amortization engine of `LoanCalculator`
(`loan_calculator.java`), with proofs about it. Given the figures of a loan,
`calculateLoan` does the following:

- validates the input;
- works out the amount to amortize, with fees either financed or paid up front;
- turns the term into a number of payment periods, and the APR into a per-period rate;
- solves for a level base payment, using the annuity formula, or plain division at rate zero, then applies a guard against negative amortization;
- simulates the loan one period at a time, appending a `PaymentRow` for each period;
- folds a last-cent residual into the final row (`adjustLastRowForPennies`);
- reports the periodic payment, the payoff date, the total paid, the total interest and any warning.

`compare` runs two such calculations and takes their differences.

The model is organised in these modules:

- `Money` (`money.dfy`): amounts as integer cents, BigDecimal's HALF_UP `setScale` as `RoundHalfUp`, and the integer `pow`.
- `Rates` (`rates.dfy`): frequencies, the period count and `periodicRate`.
- `Payment` (`payment.dfy`): per-period interest, the base-payment solver, and facts about the annuity formula.
- `Schedule` (`schedule.dfy`): the period loop as a function `Simulate`, the sums over rows, the last-row cleanup, and the schedule list as a class.
- `Loan` (`loan.dfy`): the input and result records, validation, and `calculateLoan` as a method proved equal to the function `Calculate`.
- `LoanProperties` (`loan_properties.dfy`): what a calculation promises about its schedule and totals.
- `Comparison` (`compare.dfy`): `compare`, and how extra payments change a loan.

Modelling decisions:

- **Money.** Every money input has at most two decimals, so all money is whole cents.
  - Rates are exact rationals.
  - Arithmetic done with the 20-digit `MathContext` is taken as exact.
  - Roundings to a fixed scale (`setScale`, `divide(…, scale, HALF_UP)`) are modelled exactly.
- **Period count.** `(int) Math.ceil(termMonths * (ppy / 12.0))` is the exact ceiling of termMonths·ppy/12. The doubles 26/12.0 and 52/12.0 lie just below the true quotients, and 12/12.0 is exactly 1. A product just below an integer k can round to k but not above it, and a non-integer quotient is at least 1/6 away from the next integer. The `(int)` cast saturates at Integer.MAX_VALUE, as `PeriodCount` does.
- **Dates.** Due dates have a type parameter `D`. The calendar step (`plusMonths` / `plusWeeks`) is a function `nextDue` that the caller supplies. `firstDueDate` and `nextDueDate` are the same step, so the first due date is `nextDue(startDate, frequency)`.
- **Errors.** The three `IllegalArgumentException`s become `Failure(ValidationError)`.
- **Imperative code.** `calculateLoan`, the integer `pow` and `adjustLastRowForPennies` are methods with loops and `modifies` clauses. Each is proved equal to a function, and the properties are proved about that function.

Two behaviours of the code are narrower than its own comments suggest:

- **The final balance.** The comment on `calculateLoan` (loan_calculator.java:124) says the loop stops when the balance hits zero, and the comment in `adjustLastRowForPennies` (line 331) says a balance within one cent is folded in and set to zero. The loop also stops when the period ceiling `n` is reached (line 184). When more than one cent is still owed at that point, the cleanup leaves it as the last end balance. `LoanProperties.ScheduleEnds` states exactly when each case happens. `LoanProperties.UnpaidResidualExample` shows a valid loan that ends with 0.02 owed: 0.22 borrowed at 0% over 5 months. `LoanProperties.SixPercentExample` shows an ordinary one: 10000.00 at 6% APR over 12 months pays 860.66, which is rounded down from the exact 860.6643, so 0.04 is still owed after the twelfth payment and the interest charged is 327.96, not the 327.92 that twelve payments less the principal would suggest.
- **The total paid.** `totalPaid` is accumulated inside the loop (lines 200-201), before the cleanup at line 224. It therefore leaves out the residual that the cleanup folds into the last row's payment. `LoanProperties.Totals` states the relation with that residual.

## Model

| member | source | states |
|---|---|---|
| Money.RoundHalfUp | loan_calculator.java:163 | `setScale(scale, HALF_UP)`: the result is the integer nearest to x·10^scale, with a tie going away from zero |
| Money.NearestHalfUpUnique | loan_calculator.java:163 | HALF_UP rounding has exactly one result, so the contract of `RoundHalfUp` determines it |
| Money.RoundExact | loan_calculator.java:212-215 | re-rounding a value that already has `scale` decimals changes nothing, so the `setScale(2)` of the row fields are identities on cents |
| Money.CentsOfDollars | loan_calculator.java:212-215 | `setScale(2)` of an amount in whole cents is that amount |
| Money.RoundHalfUpSign | loan_calculator.java:251-252 | a non-negative value rounds to a non-negative one; a value of at least half a unit rounds to at least one unit, and symmetrically for negative values |
| Money.RoundHalfUpMonotone | loan_calculator.java:188 | HALF_UP rounding preserves order |
| Money.Scaled | loan_calculator.java:251-259 | `setScale(scale, HALF_UP)` as a value: it moves x by at most half a unit of the last place |
| Money.PowSpec | loan_calculator.java:282-297 | the intended power: base^n for n ≥ 0, and 1/base^abs(n) for n < 0, undefined when base^abs(n) is zero; `IntPow` is proved to compute it |
| Money.PowSpecReciprocal | loan_calculator.java:293-295 | for a non-zero base, the powers for n and −n are both defined and multiply to one |
| Money.IntPow | loan_calculator.java:282-297 | the square-and-multiply loop returns 1 for n = 0, base^n for n > 0 and 1/base^abs(n) for n < 0, and fails when that division would divide by zero; the loop keeps result·b^exp = base^abs(n) |
| Money.JavaAbs | loan_calculator.java:285 | `Math.abs` on an int: the magnitude, except Integer.MIN_VALUE, which stays negative |
| Money.PowAsWritten | loan_calculator.java:282-297 | the loop as written with `Math.abs`: it agrees with the intended power for every int exponent except Integer.MIN_VALUE |
| Money.PowAsWrittenAtIntMin | loan_calculator.java:285-288 | as written, pow(2, Integer.MIN_VALUE) returns 1, which is not the intended power |
| Rates.PeriodCount | loan_calculator.java:141-143 | n is at least 1 and is the least period count covering termMonths·ppy/12 months, saturated at Integer.MAX_VALUE |
| Rates.PeriodicRate | loan_calculator.java:249-279 | a null APR, or one that rounds to zero at 12 places, gives rate 0; nominal-monthly gives 0 exactly then; the other two conventions give the supplied double-computed rate; a non-negative APR never gives a negative rate |
| Rates.NominalMonthlyRateOf | loan_calculator.java:256-260 | apr/12 rounded to `places` decimals times 12/ppy rounded to `places` decimals lies within (1 + abs(apr))·10^−places of apr/ppy, and has the sign of the first factor when the second is positive |
| Rates.NominalMonthlyRate | loan_calculator.java:249-260 | for every frequency, the nominal-monthly rate of a non-zero APR is apr/periodsPerYear to within (1 + abs(apr))·10^−20 |
| Rates.MonthlyFactor | loan_calculator.java:258-260 | with 12 periods a year the factor 12/12 rounds to exactly 1, so the rate is apr/12 rounded |
| Rates.AnnualRate | loan_calculator.java:251 | the APR percentage divided by 100, rounded HALF_UP to 12 places |
| Rates.Frequency.PeriodsPerYear | loan_calculator.java:75-79 | 12 for monthly, 26 for biweekly, 52 for weekly |
| Rates.MonthlyRateSign | loan_calculator.java:256-260 | both rounded nominal-monthly factors are non-zero, and the first has the sign of the APR |
| Rates.MonthlyPaymentsUseMonthlyRate | loan_calculator.java:258-260 | for monthly payments the factor 12/12 is exactly 1, so the rate is APR/12 to 20 places |
| Rates.SixPercentMonthly | loan_calculator.java:245-247 | 6% APR paid monthly is 0.005 per month |
| Payment.Interest | loan_calculator.java:188 | a period's interest, balance·r rounded HALF_UP to cents; `InterestRounding` and `InterestMonotone` state its properties |
| Payment.FormulaPayment | loan_calculator.java:158-163 | r·pv/(1−(1+r)^−n) to 10 places, then to cents; `FormulaPaymentNearAnnuity` bounds its distance from the exact annuity payment |
| Payment.BasePaymentFor | loan_calculator.java:153-171 | the base payment and warning of the solver; `BasePaymentProperties` states them |
| Payment.InterestRounding | loan_calculator.java:188 | a period's interest is the cent amount nearest to balance·rate; it is non-negative on a non-negative balance and rate, and zero at rate zero |
| Payment.InterestMonotone | loan_calculator.java:188 | at a non-negative rate, a smaller balance never accrues more interest |
| Payment.BasePaymentProperties | loan_calculator.java:154-171 | at rate 0 the base payment is pv/n to the nearest cent, with no warning; at a positive rate it exceeds the first interest, it warns exactly when the formula payment does not exceed that interest, and it is then interest + 0.01, otherwise the formula payment |
| Payment.ExactBalanceClosedForm | loan_calculator.java:158 | closed form of the balance after k level payments under exact compounding |
| Payment.AnnuityPayment | loan_calculator.java:157-163 | the exact annuity payment r·PV/(1−(1+r)^−n); `AnnuityPaysOff`, `AnnuityExceedsInterest` and `FormulaPaymentNearAnnuity` state what it means |
| Payment.AnnuityPaysOff | loan_calculator.java:158 | the exact annuity payment r·PV/(1−(1+r)^−n) pays the loan off in exactly n periods |
| Payment.AnnuityExceedsInterest | loan_calculator.java:158-167 | for a positive PV the exact annuity payment exceeds the first period's exact interest, so the guard can only fire through rounding |
| Payment.FormulaPaymentNearAnnuity | loan_calculator.java:163 | the two-step rounding keeps the formula payment within half a cent (plus the 10-place error) of the exact annuity payment |
| Payment.SixPercentPayment | loan_calculator.java:153-171 | 10000.00 at 0.5% a period over 12 periods: the formula payment is 860.66, and the guard keeps it, with no warning |
| Schedule.ExtraFor | loan_calculator.java:192-193 | the extra of period p: the per-period extra, plus the lump sum in period 1 only |
| Schedule.PrincipalApplied | loan_calculator.java:189-197 | min(balance, max(base − interest, 0) + extra); `RowBalance` states what it leaves |
| Schedule.RowFor | loan_calculator.java:186-215 | the row recorded for period p on an opening balance; `RowBalance` and `LoanProperties.RowFacts` state its fields |
| Schedule.Simulate | loan_calculator.java:183-221 | the period loop as a function of the opening balance; `SimulatePeriods`, `SimulateSteps`, `SimulateStops`, `SimulateDueDates` and `SimulateDecreases` state what it produces |
| Schedule.RowBalance | loan_calculator.java:196-215 | a row's principal portion plus extra is the principal applied, and its end balance is the opening balance less that, never negative |
| Schedule.Outstanding | loan_calculator.java:181-184 | the loop test `balance > 0.005`; `OutstandingIsPositive` states that on whole cents it means at least one cent is owed |
| Schedule.OutstandingIsPositive | loan_calculator.java:181-184 | on whole cents, "balance > 0.005" means "balance ≥ 1 cent" |
| Schedule.SimulatePeriods | loan_calculator.java:183-185 | the loop appends at most n rows, numbered consecutively from 1 |
| Schedule.SimulateSteps | loan_calculator.java:184-216 | each row is computed from the positive balance the previous row left |
| Schedule.StepsAt | loan_calculator.java:184-216 | row i is the row for period i+1 on the balance before it, and that balance is positive |
| Schedule.SimulateDueDates | loan_calculator.java:176-220 | the first row is due on the first due date, and each later row one step after the previous row |
| Schedule.SimulateStops | loan_calculator.java:184 | no rows exactly when the balance is not outstanding or no periods remain; every row but the last leaves a positive balance; the last leaves zero or uses up the last period |
| Schedule.SimulateDecreases | loan_calculator.java:189-204 | when the base payment exceeds the interest on every balance up to the opening one, and extras are non-negative, every row lowers the balance |
| Schedule.CashOf | loan_calculator.java:200 | a row's cash, `actualPayment` = interest + principal applied + escrow; `CashAccounts`, `TotalsAppend` and `LoanProperties.Totals` state what it sums to |
| Schedule.TotalInterestOf | loan_calculator.java:202 | the running `totalInterest` as the sum of the rows' interest; `TotalsAppend`, `TotalInterestCons` and `TotalInterestBounds` state its properties, `Loan.RunPeriods` that the loop's accumulator equals it |
| Schedule.TotalCashOf | loan_calculator.java:200-201 | the running `totalPaid` as the sum of the rows' cash; `TotalsAppend` and `CashAccounts` state its properties, `Loan.RunPeriods` that the loop's accumulator equals it |
| Schedule.TotalsAppend | loan_calculator.java:200-202 | appending a row adds its interest and its cash to the running totals |
| Schedule.CashAccounts | loan_calculator.java:200-204 | rows that conserve the balance record as cash their interest, their escrow and the principal repaid |
| Schedule.TotalInterestBounds | loan_calculator.java:202 | non-negative (or zero) interest in every row gives a non-negative (or zero) total |
| Schedule.TotalInterestCons | loan_calculator.java:202 | the total interest of a row followed by more rows is that row's interest plus the total of the rest |
| Schedule.SimulateInterestNonNegative | loan_calculator.java:188-202 | under monotone non-negative interest, a simulated schedule's total interest is non-negative |
| Schedule.FasterStep | loan_calculator.java:188-204 | one period paying at least as much extra, from no larger a balance, leaves no larger a balance |
| Schedule.SimulateFaster | loan_calculator.java:183-221 | paying at least as much extra from no larger a balance never takes more periods and never charges more total interest |
| Schedule.PenniesAdjusted | loan_calculator.java:328-338 | the cleaned-up schedule; `PenniesAdjustedFrame`, `PenniesAdjustedLast`, `PenniesAdjustedIdempotent` and `PenniesAdjustedTotals` state what it changes |
| Schedule.PenniesAdjustedFrame | loan_calculator.java:328-338 | only the last row can change, and only its payment, principal portion and end balance; principal plus end balance is conserved, and the payment moves by the same amount as the principal |
| Schedule.PenniesAdjustedLast | loan_calculator.java:332-337 | the last end balance becomes zero exactly when it was within one cent of zero, in which case that residual is added to the principal and the payment; otherwise nothing changes |
| Schedule.PenniesAdjustedIdempotent | loan_calculator.java:328-338 | cleaning up twice is the same as cleaning up once |
| Schedule.PenniesAdjustedTotals | loan_calculator.java:328-338 | the cleanup leaves the total interest unchanged and adds the folded residual to the recorded cash |
| Schedule.ScheduleList.constructor | loan_calculator.java:174 | the schedule list starts empty |
| Schedule.ScheduleList.Add | loan_calculator.java:216 | `schedule.add(row)` appends the row and changes nothing else |
| Schedule.AdjustLastRowForPennies | loan_calculator.java:328-338 | the in-place update leaves the list equal to the cleaned-up schedule |
| Loan.Validate | loan_calculator.java:129-133 | no error exactly when the principal is present and positive, the APR is present and non-negative, and the term is positive; each error is reported exactly when its check fails and every earlier check passes, in the order principal, APR, term |
| Loan.Calculate | loan_calculator.java:126-238 | a calculation fails exactly when the input is invalid, and then with the first failing check |
| Loan.Outcome | loan_calculator.java:223-236 | the packaged result of a valid loan; what it holds is stated by `LoanProperties.Totals`, `TotalPaidAccounts`, `DueDates` and `ScheduleEnds` |
| Loan.PresentValue | loan_calculator.java:138-139 | the amount to amortize: the principal, plus the fees when they are financed |
| Loan.Fees | loan_calculator.java:138 | origination fee plus closing costs, an omitted one counting as zero |
| Loan.Safe | loan_calculator.java:243 | an omitted amount counts as zero; `LoanProperties.OmittedAmountsAreZero` states that this is the same as passing zero |
| Loan.PayoffDate | loan_calculator.java:226 | the last row's due date, or the start date when there are no rows; `LoanProperties.DueDates` states it for a calculation |
| Loan.EscrowOf | loan_calculator.java:149 | the escrow added to every period: `safe(escrowPerPeriod)` when escrow is on, otherwise zero; `LoanProperties.RowFacts` states that every row carries it |
| Loan.SolveBasePayment | loan_calculator.java:153-171 | the solver's payment and warning are those of `BasePaymentFor`, computed with the integer `pow` |
| Loan.ApplyPeriod | loan_calculator.java:186-215 | one pass of the loop body records the row for period p on its opening balance, charges that row's interest, applies `PrincipalApplied`, and counts interest + principal applied + escrow as the cash, which is the row's cash |
| Loan.PeriodStep | loan_calculator.java:183-221 | the rows appended so far, this period's row and the rows the loop still appends from the new balance make up the whole simulated schedule |
| Loan.RunPeriods | loan_calculator.java:173-221 | the loop builds a fresh list holding exactly the simulated rows, and its running totals are the sums of their interest and cash |
| Loan.CalculateLoan | loan_calculator.java:126-238 | the method returns exactly `Calculate`: the validation failure, or the payment, payoff date, totals, warning and cleaned-up schedule |
| LoanProperties.RowFacts | loan_calculator.java:183-216 | row i: its opening balance is positive; its index is i+1; its interest is on that balance; the lump counts in row 1 only; escrow is in every row; principal applied is min(opening, max(base−interest, 0)+extra), plus the folded residual on the last row; principal + extra + end = opening |
| LoanProperties.RawRowFacts | loan_calculator.java:184-216 | before the cleanup, row i is the row for period i+1 on a positive opening balance, and it ends at that balance less the principal applied |
| LoanProperties.ScheduleRows | loan_calculator.java:183-216 | the facts of `RowFacts` for every row, and every end balance is non-negative |
| LoanProperties.ScheduleEnds | loan_calculator.java:183-224 | at most n rows; no rows exactly when PV ≤ 0; every row but the last leaves a positive balance; the last row ends at 0, or, if the ceiling n was reached, with more than one cent owed |
| LoanProperties.DueDates | loan_calculator.java:176-226 | the due dates advance one step per row from the first due date; the payoff date is the last row's due date, or the start date when there are no rows |
| LoanProperties.Totals | loan_calculator.java:200-235 | the periodic payment is base + escrow; total interest is the sum of row interest; total paid plus the folded residual is the rows' cash, plus the fees when they are not financed; there is a warning exactly when the guard fired |
| LoanProperties.TotalPaidAccounts | loan_calculator.java:200-229 | total paid = interest + escrow per row + principal repaid by the loop + up-front fees |
| LoanProperties.ZeroRate | loan_calculator.java:155-188 | an APR that rounds to zero gives no interest in any row, zero total interest, no warning, and a base payment of pv/n to the nearest cent |
| LoanProperties.PaymentExceedsFirstInterest | loan_calculator.java:165-170 | at a positive rate the base payment exceeds the first interest; the warning appears exactly when the formula payment would not exceed it, and the payment is then that interest + 0.01 |
| LoanProperties.NoNegativeAmortization | loan_calculator.java:165-204 | at a positive rate with non-negative extras, every row lowers the balance |
| LoanProperties.OmittedAmountsAreZero | loan_calculator.java:243 | an omitted optional amount gives the same calculation as an explicit zero (`safe`) |
| LoanProperties.SixPercentExample | loan_calculator.java:126-236 | 10000.00 at 6% APR over 12 months, paid monthly: a periodic payment of 860.66 with no warning, twelve rows, 0.04 still owed after the last, total interest 327.96 and total paid 10327.92 |
| LoanProperties.SixPercentRawRows | loan_calculator.java:183-221 | the loop's rows for an 860.66 plan at 0.5% a period from 10000.00: twelve rows, 0.04 left, 327.96 of interest and 10327.92 of cash |
| LoanProperties.SixPercentRows | loan_calculator.java:183-216 | any rows that follow one from another under that plan and stop at zero or after the twelfth are exactly those twelve rows |
| LoanProperties.HalfPercentInterest | loan_calculator.java:188 | interest at 0.5% on a balance is the cent amount less than half a cent from balance·0.005 |
| LoanProperties.UnpaidResidualExample | loan_calculator.java:183-238 | 0.22 at 0% over 5 months: payment 0.04, five rows, 0.02 still owed after the last row, total interest 0, total paid 0.20 |
| LoanProperties.ResidualFigures | loan_calculator.java:129-171 | 0.22 at 0% over 5 monthly periods is valid, has rate 0, present value 0.22, five periods, base payment 0.04 and no fees or extras |
| LoanProperties.ResidualOutcome | loan_calculator.java:183-238 | a loan with those figures pays 0.04 a period over five rows, ends with 0.02 owed, charges no interest and pays 0.20 in total |
| LoanProperties.ResidualTotalPaid | loan_calculator.java:200-229 | a loan with those figures pays 0.20 in total |
| LoanProperties.ResidualSchedule | loan_calculator.java:183-224 | a loan with those figures has five rows, ending with 0.02 owed, and the cleanup leaves them unchanged |
| LoanProperties.ResidualRawRows | loan_calculator.java:183-221 | the five rows the loop produces for those figures |
| Comparison.CompareSpec | loan_calculator.java:341-349 | the comparison fails exactly when either input is invalid, with A's error first |
| Comparison.Combine | loan_calculator.java:341-349 | A's failure comes first, then B's; otherwise the result holds both outcomes, and each of A's figures is B's plus the difference |
| Comparison.Compare | loan_calculator.java:341-349 | the method calculates A, then B, and returns `CompareSpec`: the first failure, or both results with the A − B differences in payment, total interest and schedule length |
| Comparison.CompareSwapped | loan_calculator.java:346-348 | swapping the two setups swaps the results and negates every difference |
| Comparison.CompareWithItself | loan_calculator.java:346-348 | a valid setup compared with itself has all differences zero |
| Comparison.InterestAccruesMonotonically | loan_calculator.java:188 | interest at a non-negative rate is non-negative and monotone in the balance |
| Comparison.ExtraPaymentsSave | loan_calculator.java:341-349 | comparing a setup with the same setup paying at least as much extra gives a payment difference of 0, and non-negative `monthsSaved` and interest difference |
| Comparison.FasterOutcome | loan_calculator.java:183-236 | a setup that differs only in paying at least as much extra has the same periodic payment, no more rows and no more total interest |
| Comparison.FasterRaw | loan_calculator.java:153-221 | such a setup has the same base payment, and its period loop produces no more rows and no more interest |

## Left out

- Console and file I/O: `main`, the `read*` prompts and `exportScheduleCSV` (loan_calculator.java:353-505). These are input parsing and output formatting only.
- `pow(BigDecimal, double, MathContext)`, and the NOMINAL_DAILY and EFFECTIVE_ANNUAL branches of `periodicRate` (loan_calculator.java:262-274, 300-305). They compute through `Math.pow` on doubles, so their result is the parameter `floatRate`. The model only states that the rate is zero when the APR rounds to zero, and `floatRate` otherwise.
- The unreachable `default` branch of `periodicRate` (line 277). All three enum constants are handled before it.
- Rounding of intermediates to 20 significant digits (`MathContext(20, HALF_UP)` at lines 159-166, 186-188 and 254-274). These operations are exact in the model.
- `LocalDate` arithmetic in `firstDueDate` and `nextDueDate`. It is library calendar behaviour, so it is the caller-supplied step `nextDue`.
- The `rounding` field of `LoanInput`. Only its default, HALF_UP, is modelled.
- A null `LoanInput`, and a null schedule list passed to `adjustLastRowForPennies`. Dafny values are never null.
- A null `frequency`, `compounding` or `startDate`. The source throws a NullPointerException for them (lines 141, 255 and 310-312; a null `compounding` only when the APR does not round to zero). Dafny values are never null, so the model has no such failure.
- Money amounts with more than two decimals. The engine's inputs come from a parser that accepts at most two.
- Aliasing of `PaymentRow` objects. The cleanup replaces the last row of the list, rather than mutating a row object that something else might share. Nothing else holds a row.
- The warning's text is `Loan.Warning.Message`. The model carries the warning as a value, not as a string.
- `loanease.java` and `Main.java` are not part of this model. They are separate double-based calculators with console output.

## Findings

| source | as written | input that shows it | evidently intended | confidence | as-written member | corrected member |
|---|---|---|---|---|---|---|
| loan_calculator.java:285-291 | `Math.abs(Integer.MIN_VALUE)` is still negative, so the loop never runs and the result is 1 (and `1 / 1` for the negative exponent) | `pow(2, Integer.MIN_VALUE)` returns 1 | 1 / 2^2147483648 | not executed; `calculateLoan` only passes `-n` with n ≥ 1, so it never reaches this input | Money.PowAsWrittenAtIntMin | Money.IntPow |
