/** The schedule simulator: the rows the period loop of `calculateLoan`
    appends, the sums over them, and the last-row penny cleanup
    `adjustLastRowForPennies`. Every amount is in cents. */
module Schedule {
  import opened Money
  import opened Rates
  import opened Payment

  /** One line of the amortization schedule. `payment` is the base payment
      only; `principalPortion` is the principal applied minus the extra. */
  datatype PaymentRow<D> = PaymentRow(
    periodIndex: int,
    dueDate: D,
    payment: int,
    interestPortion: int,
    principalPortion: int,
    extraApplied: int,
    escrowApplied: int,
    endBalance: int)

  /** What the period loop reads: the base payment, the interest one period
      charges on a balance (for the engine, `Interest` at the periodic rate),
      the period ceiling `n`, the extra each period, the one-time lump and the
      escrow each period. */
  datatype Plan = Plan(basePayment: int, interest: int -> int, periods: nat, extraEach: int, lump: int, escrow: int)

  /** The extra paid in period `p`: the lump sum joins it in period 1 only. */
  function ExtraFor(plan: Plan, p: int): int {
    if p == 1 then plan.extraEach + plan.lump else plan.extraEach
  }

  /** `principalDue.add(extra).min(balance)`, where `principalDue` is the
      base payment less this period's interest, but never below zero. */
  function PrincipalApplied(plan: Plan, p: int, balance: int): int {
    Min(Max(plan.basePayment - plan.interest(balance), 0) + ExtraFor(plan, p), balance)
  }

  /** The row recorded for period `p` that starts at `balance`, due on `due`. */
  function RowFor<D>(plan: Plan, p: int, balance: int, due: D): PaymentRow<D> {
    var extra := ExtraFor(plan, p);
    var applied := PrincipalApplied(plan, p, balance);
    PaymentRow(p, due, plan.basePayment, plan.interest(balance), applied - extra,
               extra, plan.escrow, Max(balance - applied, 0))
  }

  /** A row's principal portion and extra add up to the principal applied,
      which never exceeds the balance, so the end balance is the balance less
      the principal applied and never negative. */
  lemma RowBalance<D>(plan: Plan, p: int, balance: int, due: D)
    ensures var row := RowFor(plan, p, balance, due);
      row.principalPortion + row.extraApplied == PrincipalApplied(plan, p, balance) &&
      row.endBalance == balance - PrincipalApplied(plan, p, balance) >= 0
  {
  }

  /** `balance.compareTo(new BigDecimal("0.005")) > 0`: the loan is not yet
      settled. */
  predicate Outstanding(balance: int) {
    Dollars(balance) > 0.005
  }

  /** On whole cents the half-cent threshold means "at least one cent". */
  lemma OutstandingIsPositive(balance: int)
    ensures Outstanding(balance) <==> balance > 0
  {
  }

  /** The rows the loop appends from period `p + 1` on, starting at `balance`
      with the next row due on `due`; the due date advances after a row only
      while the loan stays outstanding. */
  function Simulate<D>(plan: Plan, nextDue: (D, Frequency) -> D, freq: Frequency,
                       balance: int, p: nat, due: D): seq<PaymentRow<D>>
    decreases plan.periods - p
  {
    if Outstanding(balance) && p < plan.periods then
      var rest := balance - PrincipalApplied(plan, p + 1, balance);
      [RowFor(plan, p + 1, balance, due)]
        + Simulate(plan, nextDue, freq, rest, p + 1, if Outstanding(rest) then nextDue(due, freq) else due)
    else []
  }

  /** The balance a row starts from: the opening balance for the first row,
      the previous row's end balance after that. */
  function BalanceBefore<D>(rows: seq<PaymentRow<D>>, opening: int, i: nat): int
    requires i <= |rows|
  {
    if i == 0 then opening else rows[i - 1].endBalance
  }

  /** The rows carry consecutive period indices from `p + 1` and there are
      no more of them than periods left. */
  lemma {:induction false} SimulatePeriods<D>(plan: Plan, nextDue: (D, Frequency) -> D, freq: Frequency,
                                              balance: int, p: nat, due: D)
    requires p <= plan.periods
    ensures var rows := Simulate(plan, nextDue, freq, balance, p, due);
      p + |rows| <= plan.periods &&
      forall i :: 0 <= i < |rows| ==> rows[i].periodIndex == p + 1 + i
    decreases plan.periods - p
  {
    if Outstanding(balance) && p < plan.periods {
      var rest := balance - PrincipalApplied(plan, p + 1, balance);
      SimulatePeriods(plan, nextDue, freq, rest, p + 1, if Outstanding(rest) then nextDue(due, freq) else due);
    }
  }

  /** Every row of `rows` is computed from the balance the row before it
      left (`opening` for the first), and that balance was positive. */
  ghost predicate StepsFrom<D>(plan: Plan, rows: seq<PaymentRow<D>>, opening: int, p: nat)
    decreases |rows|
  {
    rows == [] ||
    (opening > 0 &&
     rows[0] == RowFor(plan, p + 1, opening, rows[0].dueDate) &&
     StepsFrom(plan, rows[1..], rows[0].endBalance, p + 1))
  }

  /** The simulated rows follow one from another. */
  lemma {:induction false} SimulateSteps<D>(plan: Plan, nextDue: (D, Frequency) -> D, freq: Frequency,
                                            balance: int, p: nat, due: D)
    ensures StepsFrom(plan, Simulate(plan, nextDue, freq, balance, p, due), balance, p)
    decreases plan.periods - p
  {
    var rows := Simulate(plan, nextDue, freq, balance, p, due);
    if Outstanding(balance) && p < plan.periods {
      var rest := balance - PrincipalApplied(plan, p + 1, balance);
      var due' := if Outstanding(rest) then nextDue(due, freq) else due;
      SimulateSteps(plan, nextDue, freq, rest, p + 1, due');
      var tail := Simulate(plan, nextDue, freq, rest, p + 1, due');
      assert rows[1..] == tail;
      OutstandingIsPositive(balance);
    }
  }

  /** Row `i` of a stepped schedule is the row for period `p + 1 + i` on the
      balance the row before it left, and that balance was positive (so, by
      `RowBalance`, each end balance is that balance less the principal
      applied, never below zero). */
  lemma {:induction false} StepsAt<D>(plan: Plan, rows: seq<PaymentRow<D>>, opening: int, p: nat, i: nat)
    requires StepsFrom(plan, rows, opening, p) && i < |rows|
    ensures BalanceBefore(rows, opening, i) > 0
    ensures rows[i] == RowFor(plan, p + 1 + i, BalanceBefore(rows, opening, i), rows[i].dueDate)
    decreases i
  {
    if i > 0 {
      StepsAt(plan, rows[1..], rows[0].endBalance, p + 1, i - 1);
      assert rows[1..][i - 1] == rows[i];
      if i > 1 {
        assert rows[1..][i - 2] == rows[i - 1];
      }
    }
  }

  /** The first row falls on `due` and each later row one step after the one
      before it. */
  lemma {:induction false} SimulateDueDates<D>(plan: Plan, nextDue: (D, Frequency) -> D, freq: Frequency,
                                               balance: int, p: nat, due: D)
    ensures var rows := Simulate(plan, nextDue, freq, balance, p, due);
      (|rows| > 0 ==> rows[0].dueDate == due) &&
      forall i :: 0 < i < |rows| ==> rows[i].dueDate == nextDue(rows[i - 1].dueDate, freq)
    decreases plan.periods - p
  {
    var rows := Simulate(plan, nextDue, freq, balance, p, due);
    if Outstanding(balance) && p < plan.periods {
      var rest := balance - PrincipalApplied(plan, p + 1, balance);
      var due' := if Outstanding(rest) then nextDue(due, freq) else due;
      SimulateDueDates(plan, nextDue, freq, rest, p + 1, due');
      var tail := Simulate(plan, nextDue, freq, rest, p + 1, due');
      assert rows == [RowFor(plan, p + 1, balance, due)] + tail;
      if |tail| > 0 {
        assert Outstanding(rest);
        assert rows[1].dueDate == nextDue(rows[0].dueDate, freq);
      }
      forall i | 1 < i < |rows|
        ensures rows[i].dueDate == nextDue(rows[i - 1].dueDate, freq)
      {
        assert rows[i] == tail[i - 1] && rows[i - 1] == tail[i - 2];
      }
    }
  }

  /** The loop stops only once the loan is settled or the period ceiling is
      reached: every row but the last leaves a positive balance, and the last
      leaves zero unless it used up the last period. No row at all means the
      opening balance was not outstanding. */
  lemma {:induction false} SimulateStops<D>(plan: Plan, nextDue: (D, Frequency) -> D, freq: Frequency,
                                            balance: int, p: nat, due: D)
    requires p <= plan.periods
    ensures var rows := Simulate(plan, nextDue, freq, balance, p, due);
      (rows == [] <==> balance <= 0 || p == plan.periods) &&
      (rows != [] ==> rows[|rows| - 1].endBalance == 0 || p + |rows| == plan.periods) &&
      forall i :: 0 <= i < |rows| - 1 ==> rows[i].endBalance > 0
    decreases plan.periods - p
  {
    OutstandingIsPositive(balance);
    var rows := Simulate(plan, nextDue, freq, balance, p, due);
    if Outstanding(balance) && p < plan.periods {
      var rest := balance - PrincipalApplied(plan, p + 1, balance);
      var due' := if Outstanding(rest) then nextDue(due, freq) else due;
      SimulateStops(plan, nextDue, freq, rest, p + 1, due');
      var tail := Simulate(plan, nextDue, freq, rest, p + 1, due');
      assert rows == [RowFor(plan, p + 1, balance, due)] + tail;
      assert rows[0].endBalance == rest;
      if tail != [] {
        assert rows[|rows| - 1] == tail[|tail| - 1];
      }
      forall i | 0 <= i < |rows| - 1
        ensures rows[i].endBalance > 0
      {
        if i > 0 {
          assert rows[i] == tail[i - 1];
        }
      }
    }
  }

  /** Every row ends below the balance it started from. */
  ghost predicate Decreasing<D>(rows: seq<PaymentRow<D>>, opening: int) {
    forall i :: 0 <= i < |rows| ==> rows[i].endBalance < BalanceBefore(rows, opening, i)
  }

  /** When the base payment exceeds the interest on every balance up to the
      opening one and the extras are not negative, every row strictly lowers
      the balance: no negative amortization. */
  lemma {:induction false} SimulateDecreases<D>(plan: Plan, nextDue: (D, Frequency) -> D, freq: Frequency,
                                                balance: int, p: nat, due: D)
    requires plan.extraEach >= 0 && plan.lump >= 0
    requires forall b :: 0 < b <= balance ==> plan.interest(b) < plan.basePayment
    ensures Decreasing(Simulate(plan, nextDue, freq, balance, p, due), balance)
    decreases plan.periods - p
  {
    var rows := Simulate(plan, nextDue, freq, balance, p, due);
    if Outstanding(balance) && p < plan.periods {
      OutstandingIsPositive(balance);
      var rest := balance - PrincipalApplied(plan, p + 1, balance);
      var due' := if Outstanding(rest) then nextDue(due, freq) else due;
      assert plan.interest(balance) < plan.basePayment;
      assert rest < balance;
      SimulateDecreases(plan, nextDue, freq, rest, p + 1, due');
      var tail := Simulate(plan, nextDue, freq, rest, p + 1, due');
      assert rows == [RowFor(plan, p + 1, balance, due)] + tail;
      RowBalance(plan, p + 1, balance, due);
      assert rows[0].endBalance == rest;
      forall i | 0 < i < |rows|
        ensures rows[i].endBalance < BalanceBefore(rows, balance, i)
      {
        assert rows[i] == tail[i - 1];
        if i > 1 {
          assert rows[i - 1] == tail[i - 2];
        }
        assert BalanceBefore(rows, balance, i) == BalanceBefore(tail, rest, i - 1);
        assert tail[i - 1].endBalance < BalanceBefore(tail, rest, i - 1);
      }
    }
  }

  // ----- sums over the rows -----

  /** Cash paid in one period: interest, principal applied and escrow. */
  function CashOf<D>(row: PaymentRow<D>): int {
    row.interestPortion + row.principalPortion + row.extraApplied + row.escrowApplied
  }

  /** The interest of the rows summed in order, as `totalInterest` accumulates it. */
  function TotalInterestOf<D>(rows: seq<PaymentRow<D>>): int {
    if rows == [] then 0 else TotalInterestOf(rows[..|rows| - 1]) + rows[|rows| - 1].interestPortion
  }

  /** The cash of the rows summed in order, as `totalPaid` accumulates it. */
  function TotalCashOf<D>(rows: seq<PaymentRow<D>>): int {
    if rows == [] then 0 else TotalCashOf(rows[..|rows| - 1]) + CashOf(rows[|rows| - 1])
  }

  /** Appending a row adds its interest and its cash to the totals. */
  lemma TotalsAppend<D>(rows: seq<PaymentRow<D>>, row: PaymentRow<D>)
    ensures TotalInterestOf(rows + [row]) == TotalInterestOf(rows) + row.interestPortion
    ensures TotalCashOf(rows + [row]) == TotalCashOf(rows) + CashOf(row)
  {
    assert (rows + [row])[..|rows|] == rows;
  }

  /** The balance left after the last row, `opening` when there is none. */
  function FinalBalance<D>(rows: seq<PaymentRow<D>>, opening: int): int {
    if rows == [] then opening else rows[|rows| - 1].endBalance
  }

  lemma MulSucc(k: int, e: int)
    ensures (k + 1) * e == k * e + e
  {
  }

  /** Rows that each pay down their opening balance by their principal and
      extra, with the same escrow `escrow` every period, record as cash their
      interest, their escrow and the principal they repaid in all. */
  lemma {:induction false} CashAccounts<D>(rows: seq<PaymentRow<D>>, opening: int, escrow: int)
    requires forall i :: 0 <= i < |rows| ==>
      rows[i].principalPortion + rows[i].extraApplied + rows[i].endBalance == BalanceBefore(rows, opening, i)
    requires forall i :: 0 <= i < |rows| ==> rows[i].escrowApplied == escrow
    ensures TotalCashOf(rows) == TotalInterestOf(rows) + |rows| * escrow + (opening - FinalBalance(rows, opening))
  {
    if rows != [] {
      var init := rows[..|rows| - 1];
      forall i | 0 <= i < |init|
        ensures init[i].principalPortion + init[i].extraApplied + init[i].endBalance == BalanceBefore(init, opening, i)
        ensures init[i].escrowApplied == escrow
      {
        assert init[i] == rows[i];
        if i > 0 {
          assert init[i - 1] == rows[i - 1];
        }
      }
      CashAccounts(init, opening, escrow);
      if |rows| > 1 {
        assert init[|init| - 1] == rows[|rows| - 2];
      }
      var last := rows[|rows| - 1];
      assert BalanceBefore(rows, opening, |rows| - 1) == FinalBalance(init, opening);
      assert TotalCashOf(rows) == TotalCashOf(init) + CashOf(last);
      assert TotalInterestOf(rows) == TotalInterestOf(init) + last.interestPortion;
      MulSucc(|init|, escrow);
    }
  }

  /** Interest that is never negative sums to a non-negative total, and zero
      interest in every row sums to zero. */
  lemma {:induction false} TotalInterestBounds<D>(rows: seq<PaymentRow<D>>)
    ensures (forall i :: 0 <= i < |rows| ==> rows[i].interestPortion >= 0) ==> TotalInterestOf(rows) >= 0
    ensures (forall i :: 0 <= i < |rows| ==> rows[i].interestPortion == 0) ==> TotalInterestOf(rows) == 0
  {
    if rows != [] {
      var init := rows[..|rows| - 1];
      TotalInterestBounds(init);
      assert forall i :: 0 <= i < |init| ==> init[i] == rows[i];
    }
  }

  /** Prepending a row adds its interest to the total. */
  lemma {:induction false} TotalInterestCons<D>(row: PaymentRow<D>, rows: seq<PaymentRow<D>>)
    ensures TotalInterestOf([row] + rows) == row.interestPortion + TotalInterestOf(rows)
    decreases |rows|
  {
    if rows != [] {
      var init := rows[..|rows| - 1];
      TotalInterestCons(row, init);
      assert ([row] + rows)[..|rows|] == [row] + init;
    }
  }

  /** The interest a plan charges is never negative on a non-negative balance
      and never smaller on a larger one (true of `Interest` at a rate that is
      not negative). */
  ghost predicate AccruesMonotonically(plan: Plan) {
    forall x, y :: 0 <= x <= y ==> 0 <= plan.interest(x) <= plan.interest(y)
  }

  /** `fast` is `slow` with at least as much extra in every period: the same
      base payment, interest and period ceiling. */
  ghost predicate PaysFaster(fast: Plan, slow: Plan) {
    fast.basePayment == slow.basePayment && fast.interest == slow.interest &&
    fast.periods == slow.periods &&
    fast.extraEach >= slow.extraEach && fast.extraEach + fast.lump >= slow.extraEach + slow.lump
  }

  /** A schedule of positive balances charges non-negative interest in total. */
  lemma {:induction false} SimulateInterestNonNegative<D>(plan: Plan, nextDue: (D, Frequency) -> D, freq: Frequency,
                                                          balance: int, p: nat, due: D)
    requires AccruesMonotonically(plan)
    ensures TotalInterestOf(Simulate(plan, nextDue, freq, balance, p, due)) >= 0
    decreases plan.periods - p
  {
    if Outstanding(balance) && p < plan.periods {
      var rest := balance - PrincipalApplied(plan, p + 1, balance);
      var due' := if Outstanding(rest) then nextDue(due, freq) else due;
      SimulateInterestNonNegative(plan, nextDue, freq, rest, p + 1, due');
      var row := RowFor(plan, p + 1, balance, due);
      TotalInterestCons(row, Simulate(plan, nextDue, freq, rest, p + 1, due'));
      assert plan.interest(balance) >= 0;
    }
  }

  /** One period of the faster plan, started from no more than the slower
      plan's balance, leaves no more than the slower plan's period leaves. */
  lemma FasterStep(fast: Plan, slow: Plan, p: int, bf: int, bs: int)
    requires PaysFaster(fast, slow) && AccruesMonotonically(slow)
    requires 0 < bf <= bs
    ensures bf - PrincipalApplied(fast, p, bf) <= bs - PrincipalApplied(slow, p, bs)
  {
    assert fast.interest(bf) <= slow.interest(bs);
    assert ExtraFor(fast, p) >= ExtraFor(slow, p);
  }

  /** Paying at least as much extra from no larger a balance never takes more
      periods and never charges more interest. */
  lemma {:induction false} SimulateFaster<D>(fast: Plan, slow: Plan, nextDue: (D, Frequency) -> D, freq: Frequency,
                                             bf: int, bs: int, p: nat, dueF: D, dueS: D)
    requires PaysFaster(fast, slow) && AccruesMonotonically(slow)
    requires bf <= bs
    ensures var rf, rs := Simulate(fast, nextDue, freq, bf, p, dueF), Simulate(slow, nextDue, freq, bs, p, dueS);
      |rf| <= |rs| && TotalInterestOf(rf) <= TotalInterestOf(rs)
    decreases fast.periods - p
  {
    var rf, rs := Simulate(fast, nextDue, freq, bf, p, dueF), Simulate(slow, nextDue, freq, bs, p, dueS);
    SimulateInterestNonNegative(slow, nextDue, freq, bs, p, dueS);
    if Outstanding(bf) && p < fast.periods {
      OutstandingIsPositive(bf);
      OutstandingIsPositive(bs);
      var restF := bf - PrincipalApplied(fast, p + 1, bf);
      var restS := bs - PrincipalApplied(slow, p + 1, bs);
      var dueF' := if Outstanding(restF) then nextDue(dueF, freq) else dueF;
      var dueS' := if Outstanding(restS) then nextDue(dueS, freq) else dueS;
      FasterStep(fast, slow, p + 1, bf, bs);
      SimulateFaster(fast, slow, nextDue, freq, restF, restS, p + 1, dueF', dueS');
      var tailF := Simulate(fast, nextDue, freq, restF, p + 1, dueF');
      var tailS := Simulate(slow, nextDue, freq, restS, p + 1, dueS');
      TotalInterestCons(RowFor(fast, p + 1, bf, dueF), tailF);
      TotalInterestCons(RowFor(slow, p + 1, bs, dueS), tailS);
      assert fast.interest(bf) <= slow.interest(bs);
    }
  }

  // ----- last-row cleanup -----

  /** The schedule after `adjustLastRowForPennies`: when the last row's end
      balance is within one cent of zero, that residual is folded into its
      principal portion and its payment and the end balance becomes zero. */
  function PenniesAdjusted<D>(rows: seq<PaymentRow<D>>): seq<PaymentRow<D>> {
    if rows == [] then rows
    else
      var last := rows[|rows| - 1];
      if Abs(last.endBalance) <= 1 then
        rows[..|rows| - 1] + [last.(principalPortion := last.principalPortion + last.endBalance,
                                   payment := last.payment + last.endBalance,
                                   endBalance := 0)]
      else rows
  }

  /** The residual the cleanup folds in: the last end balance when it is
      within one cent of zero. */
  function FoldedResidual<D>(rows: seq<PaymentRow<D>>): int {
    if rows != [] && Abs(rows[|rows| - 1].endBalance) <= 1 then rows[|rows| - 1].endBalance else 0
  }

  /** Only the last row may change, and only its payment, principal portion
      and end balance; principal plus end balance is conserved, and the
      payment moves with the principal. An empty schedule is unchanged. */
  lemma PenniesAdjustedFrame<D>(rows: seq<PaymentRow<D>>)
    ensures var adjusted := PenniesAdjusted(rows);
      |adjusted| == |rows| &&
      (rows == [] ==> adjusted == rows) &&
      (forall i :: 0 <= i < |rows| - 1 ==> adjusted[i] == rows[i]) &&
      (rows != [] ==>
        var last, last' := rows[|rows| - 1], adjusted[|rows| - 1];
        last'.periodIndex == last.periodIndex && last'.dueDate == last.dueDate &&
        last'.interestPortion == last.interestPortion && last'.extraApplied == last.extraApplied &&
        last'.escrowApplied == last.escrowApplied &&
        last'.principalPortion + last'.endBalance == last.principalPortion + last.endBalance &&
        last'.payment - last'.principalPortion == last.payment - last.principalPortion)
  {
  }

  /** The last end balance becomes zero exactly when it was within one cent
      of zero (or already zero); otherwise nothing changes. */
  lemma PenniesAdjustedLast<D>(rows: seq<PaymentRow<D>>)
    requires rows != []
    ensures var last, last' := rows[|rows| - 1], PenniesAdjusted(rows)[|rows| - 1];
      (last'.endBalance == 0 <==> Abs(last.endBalance) <= 1) &&
      (Abs(last.endBalance) > 1 ==> PenniesAdjusted(rows) == rows) &&
      last'.principalPortion == last.principalPortion + FoldedResidual(rows) &&
      last'.payment == last.payment + FoldedResidual(rows)
  {
  }

  /** Cleaning up twice is cleaning up once. */
  lemma PenniesAdjustedIdempotent<D>(rows: seq<PaymentRow<D>>)
    ensures PenniesAdjusted(PenniesAdjusted(rows)) == PenniesAdjusted(rows)
  {
  }

  /** The cleanup leaves total interest alone and adds the folded residual to
      the cash recorded in the rows. */
  lemma PenniesAdjustedTotals<D>(rows: seq<PaymentRow<D>>)
    ensures TotalInterestOf(PenniesAdjusted(rows)) == TotalInterestOf(rows)
    ensures TotalCashOf(PenniesAdjusted(rows)) == TotalCashOf(rows) + FoldedResidual(rows)
  {
    var adjusted := PenniesAdjusted(rows);
    if rows != [] && Abs(rows[|rows| - 1].endBalance) <= 1 {
      assert adjusted[..|adjusted| - 1] == rows[..|rows| - 1];
    }
  }

  /** The `List<PaymentRow>` the engine appends to and then cleans up. */
  class ScheduleList<D> {
    var rows: seq<PaymentRow<D>>

    constructor ()
      ensures rows == []
    {
      rows := [];
    }

    /** `schedule.add(row)` */
    method Add(row: PaymentRow<D>)
      modifies this
      ensures rows == old(rows) + [row]
    {
      rows := rows + [row];
    }
  }

  /** `adjustLastRowForPennies(schedule, rounding)`: updates the last row of
      the list in place. */
  method AdjustLastRowForPennies<D>(schedule: ScheduleList<D>)
    modifies schedule
    ensures schedule.rows == PenniesAdjusted(old(schedule.rows))
  {
    if |schedule.rows| == 0 {
      return;
    }
    var last := schedule.rows[|schedule.rows| - 1];
    if Abs(last.endBalance) <= 1 {
      var delta := last.endBalance;
      var fixed := last.(principalPortion := last.principalPortion + delta,
                         payment := last.payment + delta,
                         endBalance := 0);
      schedule.rows := schedule.rows[..|schedule.rows| - 1] + [fixed];
    }
  }
}
