/** The payment solver: the level payment that amortizes the present value,
    two-step rounded to cents, with the negative-amortization guard. */
module Payment {
  import opened Money

  /** Interest accrued on `balance` cents over one period at rate `r`,
      `balance.multiply(r).setScale(2, HALF_UP)`, in cents. */
  function Interest(balance: int, r: real): int {
    Cents(Dollars(balance) * r)
  }

  /** The interest is the cent amount nearest to balance times rate; it is
      never negative on a non-negative balance and rate, and zero at rate
      zero. */
  lemma InterestRounding(balance: int, r: real)
    ensures NearestHalfUp(Interest(balance, r), balance as real * r)
    ensures balance >= 0 && r >= 0.0 ==> Interest(balance, r) >= 0
    ensures r == 0.0 ==> Interest(balance, r) == 0
  {
    var i := Cents(Dollars(balance) * r);
    assert Dollars(balance) * r * Pow10(2) as real == balance as real * r;
    if balance >= 0 && r >= 0.0 {
      assert balance as real * r >= 0.0;
    }
    if r == 0.0 {
      NearestHalfUpUnique(i, 0, 0.0);
    }
  }

  /** At a non-negative rate a smaller balance never accrues more interest. */
  lemma InterestMonotone(smaller: int, larger: int, r: real)
    requires smaller <= larger && r >= 0.0
    ensures Interest(smaller, r) <= Interest(larger, r)
  {
    assert Dollars(smaller) * r <= Dollars(larger) * r;
    RoundHalfUpMonotone(Dollars(smaller) * r, Dollars(larger) * r, 2);
  }

  /** The annuity payment r·PV / (1 − (1+r)^−n) of exact arithmetic. */
  function AnnuityPayment(pv: real, r: real, n: nat): real
    requires r > 0.0 && n >= 1
  {
    PowerAboveOne(1.0 + r, n);
    r * pv / (1.0 - 1.0 / Power(1.0 + r, n))
  }

  /** The formula payment in cents: the annuity payment divided out to 10
      places (`num.divide(denom, 10, HALF_UP)`), then set to scale 2. */
  function FormulaPayment(pv: int, r: real, n: nat): int
    requires r > 0.0 && n >= 1
  {
    RoundHalfUp(Scaled(AnnuityPayment(Dollars(pv), r, n), 10), 2)
  }

  /** The base payment and whether the guard replaced it (and warned). */
  datatype BasePayment = BasePayment(amount: int, adjusted: bool)

  /** The base scheduled payment for present value `pv` cents, rate `r` and
      `n` periods: `pv / n` to the cent at rate zero; otherwise the formula
      payment, raised to the first period's interest plus one cent when it
      would not exceed that interest. */
  function BasePaymentFor(pv: int, r: real, n: nat): BasePayment
    requires r >= 0.0 && n >= 1
  {
    if r == 0.0 then BasePayment(Cents(Dollars(pv) / n as real), false)
    else
      var formula := FormulaPayment(pv, r, n);
      var firstInterest := Interest(pv, r);
      if formula <= firstInterest then BasePayment(firstInterest + 1, true)
      else BasePayment(formula, false)
  }

  /** At rate zero the base payment is `pv / n` to the nearest cent and never
      adjusted. At a positive rate it always exceeds the first period's
      interest: it is the formula payment, or, exactly when that would not
      exceed the interest, the interest plus one cent. */
  lemma BasePaymentProperties(pv: int, r: real, n: nat)
    requires r >= 0.0 && n >= 1
    ensures var p := BasePaymentFor(pv, r, n);
      (r == 0.0 ==> !p.adjusted && NearestHalfUp(p.amount, pv as real / n as real)) &&
      (r > 0.0 ==> p.amount > Interest(pv, r)) &&
      (r > 0.0 ==> (p.adjusted <==> FormulaPayment(pv, r, n) <= Interest(pv, r))) &&
      (r > 0.0 && p.adjusted ==> p.amount == Interest(pv, r) + 1) &&
      (r > 0.0 && !p.adjusted ==> p.amount == FormulaPayment(pv, r, n))
  {
    if r == 0.0 {
      assert Dollars(pv) / n as real * Pow10(2) as real == pv as real / n as real;
    }
  }

  /** The balance after `k` periods of exact compounding at rate `r` with a
      level payment. */
  function ExactBalance(pv: real, r: real, payment: real, k: nat): real {
    if k == 0 then pv else ExactBalance(pv, r, payment, k - 1) * (1.0 + r) - payment
  }

  /** The closed form of the balance after `k` periods, multiplied by `r`:
      pv·r·(1+r)^k − payment·((1+r)^k − 1). */
  ghost predicate ClosedFormHolds(pv: real, r: real, payment: real, k: nat) {
    ExactBalance(pv, r, payment, k) * r
      == pv * r * Power(1.0 + r, k) - payment * (Power(1.0 + r, k) - 1.0)
  }

  lemma {:induction false} ExactBalanceClosedForm(pv: real, r: real, payment: real, k: nat)
    ensures ClosedFormHolds(pv, r, payment, k)
  {
    if k == 0 {
      assert ExactBalance(pv, r, payment, 0) == pv && Power(1.0 + r, 0) == 1.0;
    } else {
      ExactBalanceClosedForm(pv, r, payment, k - 1);
      ClosedFormNext(pv, r, payment, k);
    }
  }

  /** One period of `ExactBalanceClosedForm`. */
  lemma ClosedFormNext(pv: real, r: real, payment: real, k: nat)
    requires k > 0 && ClosedFormHolds(pv, r, payment, k - 1)
    ensures ClosedFormHolds(pv, r, payment, k)
  {
    var b, x := ExactBalance(pv, r, payment, k - 1), Power(1.0 + r, k - 1);
    var b', x' := ExactBalance(pv, r, payment, k), Power(1.0 + r, k);
    assert b' == b * (1.0 + r) - payment;
    assert x' == (1.0 + r) * x;
    ClosedFormStep(b, x, b', x', pv, r, payment);
  }

  /** The algebra of one step of `ExactBalanceClosedForm`: from balance `b`
      and power `x` to the next balance `b'` and power `x'`. */
  lemma ClosedFormStep(b: real, x: real, b': real, x': real, pv: real, r: real, payment: real)
    requires b * r == pv * r * x - payment * (x - 1.0)
    requires b' == b * (1.0 + r) - payment && x' == (1.0 + r) * x
    ensures b' * r == pv * r * x' - payment * (x' - 1.0)
  {
    var y := 1.0 + r;
    calc {
      b' * r;
      (b * y - payment) * r;
      (b * r) * y - payment * r;
      (pv * r * x - payment * (x - 1.0)) * y - payment * r;
      pv * r * x * y - payment * (x - 1.0) * y - payment * r;
      { assert payment * (x - 1.0) * y == payment * x * y - payment * y; }
      pv * r * x * y - payment * x * y + payment * y - payment * r;
      { assert payment * y == payment + payment * r; }
      pv * r * x * y - payment * x * y + payment;
      pv * r * (y * x) - payment * (y * x - 1.0);
      pv * r * x' - payment * (x' - 1.0);
    }
  }

  /** The annuity payment, paid every period with exact arithmetic, brings the
      balance to exactly zero after `n` periods. */
  lemma AnnuityPaysOff(pv: real, r: real, n: nat)
    requires r > 0.0 && n >= 1
    ensures ExactBalance(pv, r, AnnuityPayment(pv, r, n), n) == 0.0
  {
    var x := Power(1.0 + r, n);
    PowerAboveOne(1.0 + r, n);
    var p := AnnuityPayment(pv, r, n);
    var d := 1.0 - 1.0 / x;
    assert p == r * pv / d;
    assert d * x == x - 1.0;
    assert p * (x - 1.0) == p * d * x;
    assert p * d == r * pv;
    assert p * (x - 1.0) == r * pv * x;
    ExactBalanceClosedForm(pv, r, p, n);
    var b := ExactBalance(pv, r, p, n);
    assert b * r == 0.0;
  }

  /** For a positive present value the annuity payment strictly exceeds the
      first period's exact interest: the guard can only fire through
      rounding. */
  lemma AnnuityExceedsInterest(pv: real, r: real, n: nat)
    requires pv > 0.0 && r > 0.0 && n >= 1
    ensures AnnuityPayment(pv, r, n) > pv * r
  {
    var x := Power(1.0 + r, n);
    PowerAboveOne(1.0 + r, n);
    var d := 1.0 - 1.0 / x;
    assert 0.0 < d < 1.0;
    var p := AnnuityPayment(pv, r, n);
    assert p * d == r * pv;
    assert p > 0.0;
    assert p * d < p;
  }

  /** The two-step rounding keeps the formula payment within half a cent (and
      the 10-place rounding error) of the exact annuity payment. */
  lemma FormulaPaymentNearAnnuity(pv: int, r: real, n: nat)
    requires r > 0.0 && n >= 1
    ensures -0.500000005 <= FormulaPayment(pv, r, n) as real - AnnuityPayment(Dollars(pv), r, n) * 100.0 <= 0.500000005
  {
    var a := AnnuityPayment(Dollars(pv), r, n);
    assert Pow10(10) == 10_000_000_000;
    var q := RoundHalfUp(a, 10);
    assert -0.5 <= q as real - a * 10_000_000_000.0 <= 0.5;
    var s := Scaled(a, 10);
    assert s == q as real / 10_000_000_000.0;
    assert -0.00000000005 <= s - a <= 0.00000000005;
    assert -0.5 <= FormulaPayment(pv, r, n) as real - s * 100.0 <= 0.5;
  }

  /** 10000.00 borrowed at 0.5% a period over 12 periods (6% APR paid
      monthly) has a formula payment of 860.66, well above the first
      period's interest of 50.00, so the guard leaves it alone. */
  lemma SixPercentPayment()
    ensures FormulaPayment(1000000, 0.005, 12) == 86066
    ensures BasePaymentFor(1000000, 0.005, 12) == BasePayment(86066, false)
  {
    var b := 1.0 + 0.005;
    assert Power(b, 1) == 1.005;
    assert Power(b, 2) == 1.010025;
    assert Power(b, 3) == 1.015075125;
    assert Power(b, 4) == 1.020150500625;
    assert Power(b, 5) == 1.025251253128125;
    assert Power(b, 6) == 65944160601201.0 / 64000000000000.0;
    assert Power(b, 7) == 13254776280841401.0 / 12800000000000000.0;
    assert Power(b, 8) == 2664210032449121601.0 / 2560000000000000000.0;
    assert Power(b, 9) == 535506216522273441801.0 / 512000000000000000000.0;
    assert Power(b, 10) == 107636749520976961802001.0 / 102400000000000000000000.0;
    assert Power(b, 11) == 21634986653716369322202201.0 / 20480000000000000000000000.0;
    var p := 4348632317396990233762642401.0 / 4096000000000000000000000000.0;
    assert Power(b, 12) == p;
    var a := AnnuityPayment(Dollars(1000000), 0.005, 12);
    assert a == 50.0 / (1.0 - 1.0 / p);
    assert Pow10(2) == 100;
    assert Pow10(10) == 10_000_000_000;
    var q := 8606642970708;
    assert NearestHalfUp(q, a * 10_000_000_000.0);
    NearestHalfUpUnique(RoundHalfUp(a, 10), q, a * 10_000_000_000.0);
    var s := Scaled(a, 10);
    assert s == q as real / 10_000_000_000.0;
    assert NearestHalfUp(86066, s * 100.0);
    NearestHalfUpUnique(RoundHalfUp(s, 2), 86066, s * 100.0);
    RoundExact(Dollars(1000000) * 0.005, 2, 5000);
  }
}
