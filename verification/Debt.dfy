/** Debt capacity and covenants (`calculate_debt_capacity` in `python_forecast/plugin.py`). */
module Debt {
  import opened Reals
  import opened Results
  import opened Rounding

  datatype DebtInputs = DebtInputs(
    horizon: int, rate: real, repayment: real, maxLeverage: real, minCoverage: real, growth: real,
    ebitda: real, opening: real)

  /** `UndefinedRatio`: an infinite ratio cannot be quantized. */
  datatype DebtError = BadHorizon | RateOutOfRange | UndefinedRatio

  /** Published amounts are in hundredths, ratios in ten-thousandths. */
  datatype DebtRow = DebtRow(
    opening: int, interest: int, repayment: int, closing: int, ebitda: int, leverage: int, coverage: int, pass: bool)

  function Min(x: real, y: real): real
  {
    if y < x then y else x
  }

  function Max(x: real, y: real): real
  {
    if x < y then y else x
  }

  // ---------------------------------------------------------------- the unrounded schedule

  /** Debt outstanding after `n` years, and the payment and service of year `n`. */
  function Balance(a: DebtInputs, n: nat): real
  {
    if n == 0 then a.opening else Balance(a, n - 1) - Min(a.repayment, Balance(a, n - 1))
  }

  function Payment(a: DebtInputs, n: nat): real
    requires n >= 1
  {
    Min(a.repayment, Balance(a, n - 1))
  }

  function Interest(a: DebtInputs, n: nat): real
    requires n >= 1
  {
    Balance(a, n - 1) * a.rate
  }

  function Service(a: DebtInputs, n: nat): real
    requires n >= 1
  {
    Interest(a, n) + Payment(a, n)
  }

  function Ebitda(a: DebtInputs, n: nat): real
  {
    if n == 0 then a.ebitda else Ebitda(a, n - 1) * (1.0 + a.growth)
  }

  predicate Defined(a: DebtInputs, n: nat)
    requires n >= 1
  {
    Ebitda(a, n) != 0.0 && Service(a, n) != 0.0
  }

  function Leverage(a: DebtInputs, n: nat): real
    requires n >= 1 && Defined(a, n)
  {
    Balance(a, n) / Ebitda(a, n)
  }

  function Coverage(a: DebtInputs, n: nat): real
    requires n >= 1 && Defined(a, n)
  {
    Ebitda(a, n) / Service(a, n)
  }

  predicate Pass(a: DebtInputs, n: nat)
    requires n >= 1 && Defined(a, n)
  {
    Leverage(a, n) <= a.maxLeverage && Coverage(a, n) >= a.minCoverage
  }

  ghost predicate IsRow(a: DebtInputs, n: nat, row: DebtRow)
    requires n >= 1
  {
    && Defined(a, n)
    && row.opening == Cents(Balance(a, n - 1)) && row.closing == Cents(Balance(a, n))
    && row.interest == Cents(Interest(a, n)) && row.repayment == Cents(Payment(a, n))
    && row.ebitda == Cents(Ebitda(a, n))
    && row.leverage == HalfEven(Leverage(a, n) * 10000.0)
    && row.coverage == HalfEven(Coverage(a, n) * 10000.0)
    && row.pass == Pass(a, n)
  }

  ghost predicate AreRows(a: DebtInputs, rows: seq<DebtRow>)
  {
    forall i | 0 <= i < |rows| :: IsRow(a, i + 1, rows[i])
  }

  predicate AllPass(rows: seq<DebtRow>)
  {
    forall row | row in rows :: row.pass
  }

  ghost predicate AllDefined(a: DebtInputs, n: nat)
  {
    forall year | 1 <= year <= n :: Defined(a, year)
  }

  method YearRow(a: DebtInputs, year: nat, debt: real, ebitda: real) returns (r: Option<DebtRow>, closing: real)
    requires year >= 1 && debt == Balance(a, year - 1) && ebitda == Ebitda(a, year)
    ensures closing == Balance(a, year)
    ensures r.Some? <==> Defined(a, year)
    ensures r.Some? ==> IsRow(a, year, r.value)
  {
    hide Cents, HalfEven;
    var interest := debt * a.rate;
    var payment := Min(a.repayment, debt);
    var service := interest + payment;
    closing := debt - payment;
    if ebitda == 0.0 || service == 0.0 {
      return None, closing;
    }
    var leverage, coverage := closing / ebitda, ebitda / service;
    assert leverage == Leverage(a, year) && coverage == Coverage(a, year);
    assert interest == Interest(a, year) && payment == Payment(a, year);
    hide Service, Interest, Payment, Balance, Ebitda, Leverage, Coverage;
    r := Some(DebtRow(Cents(debt), Cents(interest), Cents(payment), Cents(closing), Cents(ebitda),
                      HalfEven(leverage * 10000.0), HalfEven(coverage * 10000.0),
                      leverage <= a.maxLeverage && coverage >= a.minCoverage));
  }

  /** A schedule is produced exactly when every ratio of every year is defined. */
  method CalculateDebtCapacity(a: DebtInputs) returns (r: Result<(seq<DebtRow>, bool), DebtError>)
    ensures r.Ok? <==> a.horizon >= 1 && a.rate >= 0.0 && AllDefined(a, a.horizon)
    ensures r == Err(BadHorizon) <==> a.horizon < 1
    ensures r == Err(UndefinedRatio) <==> a.horizon >= 1 && a.rate >= 0.0 && !AllDefined(a, a.horizon)
    ensures r.Ok? ==> |r.value.0| == a.horizon && AreRows(a, r.value.0) && r.value.1 == AllPass(r.value.0)
  {
    if a.horizon < 1 {
      return Err(BadHorizon);
    }
    if a.rate < 0.0 {
      return Err(RateOutOfRange);
    }
    hide IsRow, Defined;
    var ebitda, debt, rows := a.ebitda, a.opening, [];
    for year := 1 to a.horizon + 1
      invariant ebitda == Ebitda(a, year - 1) && debt == Balance(a, year - 1)
      invariant |rows| == year - 1
      invariant AreRows(a, rows) && AllDefined(a, year - 1)
    {
      ebitda := ebitda * (1.0 + a.growth);
      var row, closing := YearRow(a, year, debt, ebitda);
      if row.None? {
        assert !Defined(a, year);
        return Err(UndefinedRatio);
      }
      rows := rows + [row.value];
      debt := closing;
    }
    r := Ok((rows, AllPass(rows)));
  }

  // ---------------------------------------------------------------- the roll-forward

  function Payments(a: DebtInputs, n: nat): real
  {
    if n == 0 then 0.0 else Payments(a, n - 1) + Payment(a, n)
  }

  /** What is repaid and what is left is what was owed, whatever the signs of the inputs. */
  lemma {:induction false} PaymentsAndBalance(a: DebtInputs, n: nat)
    ensures Payments(a, n) + Balance(a, n) == a.opening
  {
    if n > 0 {
      PaymentsAndBalance(a, n - 1);
    }
  }

  /** Debt falls in a straight line to zero and stays there. */
  lemma {:induction false} BalanceClosedForm(a: DebtInputs, n: nat)
    requires a.repayment >= 0.0
    ensures n >= 1 || a.opening >= 0.0 ==> Balance(a, n) == Max(a.opening - n as real * a.repayment, 0.0)
  {
    if n > 0 {
      BalanceClosedForm(a, n - 1);
      StepProduct(n, a.repayment);
      ProductNonNegative((n - 1) as real, a.repayment);
      hide Payment;
      assert Payment(a, n) == Min(a.repayment, Balance(a, n - 1));
    }
  }

  lemma StepProduct(n: nat, x: real)
    requires n >= 1
    ensures n as real * x == (n - 1) as real * x + x
  {
    assert n as real == (n - 1) as real + 1.0;
  }

  // ---------------------------------------------------------------- when a schedule exists

  /** Earnings are never zero exactly when they start non-zero and are not wiped out by growth. */
  lemma {:induction false} EbitdaNonZero(a: DebtInputs, n: nat)
    ensures n >= 1 ==> (Ebitda(a, n) != 0.0 <==> a.ebitda != 0.0 && a.growth != -1.0)
  {
    if n > 0 {
      EbitdaNonZero(a, n - 1);
      ProductZero(Ebitda(a, n - 1), 1.0 + a.growth);
    }
  }

  /** The service of a year in terms of the debt at its start. */
  lemma ServiceZero(a: DebtInputs, n: nat)
    requires n >= 1 && a.rate >= 0.0 && a.repayment >= 0.0
    ensures Service(a, n) == 0.0 <==>
            var debt := Balance(a, n - 1); debt == 0.0 || (debt > 0.0 && a.repayment == 0.0 && a.rate == 0.0)
  {
    var debt := Balance(a, n - 1);
    ProductZero(debt, a.rate);
    if debt <= a.repayment {
      assert Service(a, n) == debt * (a.rate + 1.0);
      ProductZero(debt, a.rate + 1.0);
    } else {
      ProductNonNegative(debt, a.rate);
    }
  }

  /** What a caller can check of the debt beforehand. */
  predicate Serviceable(a: DebtInputs, n: nat)
    requires n >= 1
  {
    || (a.opening < 0.0 && n == 1)
    || (a.opening > 0.0 && a.opening > (n - 1) as real * a.repayment && (a.repayment > 0.0 || a.rate > 0.0))
  }

  lemma LineIsMonotone(m: nat, n: nat, x: real)
    requires m <= n && x >= 0.0
    ensures m as real * x <= n as real * x
  {
    ProductNonNegative((n - m) as real, x);
    assert n as real * x == m as real * x + (n - m) as real * x;
  }

  lemma ServiceableYear(a: DebtInputs, n: nat)
    requires n >= 1 && a.rate >= 0.0 && a.repayment >= 0.0
    requires a.opening > 0.0 && (a.repayment > 0.0 || a.rate > 0.0)
    ensures Service(a, n) != 0.0 <==> a.opening > (n - 1) as real * a.repayment
  {
    ServiceZero(a, n);
    BalanceClosedForm(a, n - 1);
  }

  /**
   * With a repayment that is not negative, a schedule exists exactly when earnings cannot vanish
   * and the debt outlasts every year but the last: once it is repaid early, the calculation raises.
   */
  lemma ScheduleExistsIff(a: DebtInputs)
    requires a.horizon >= 1 && a.rate >= 0.0 && a.repayment >= 0.0
    ensures AllDefined(a, a.horizon) <==> a.ebitda != 0.0 && a.growth != -1.0 && Serviceable(a, a.horizon)
  {
    hide Balance, Ebitda, Service;
    var h := a.horizon;
    forall year | 1 <= year <= h
      ensures Ebitda(a, year) != 0.0 <==> a.ebitda != 0.0 && a.growth != -1.0
    {
      EbitdaNonZero(a, year);
    }
    ServicesExistIff(a);
    if AllDefined(a, h) {
      assert Defined(a, 1);
      forall year | 1 <= year <= h ensures Service(a, year) != 0.0 {
        assert Defined(a, year);
      }
    }
  }

  lemma ServicesExistIff(a: DebtInputs)
    requires a.horizon >= 1 && a.rate >= 0.0 && a.repayment >= 0.0
    ensures (forall year | 1 <= year <= a.horizon :: Service(a, year) != 0.0) <==> Serviceable(a, a.horizon)
  {
    ServiceZero(a, 1);
    assert Balance(a, 0) == a.opening;
    if a.opening > 0.0 && (a.repayment > 0.0 || a.rate > 0.0) {
      PositiveDebtServices(a);
    } else {
      if a.opening < 0.0 { OverpaidServices(a); }
      hide Service;
      assert Service(a, 1) == 0.0 || a.opening < 0.0;
    }
  }

  lemma PositiveDebtServices(a: DebtInputs)
    requires a.horizon >= 1 && a.rate >= 0.0 && a.repayment >= 0.0
    requires a.opening > 0.0 && (a.repayment > 0.0 || a.rate > 0.0)
    ensures (forall year | 1 <= year <= a.horizon :: Service(a, year) != 0.0) <==> Serviceable(a, a.horizon)
  {
    hide Service, Balance;
    var h := a.horizon;
    ServiceableYear(a, h);
    forall year | 1 <= year <= h
      ensures Serviceable(a, h) ==> Service(a, year) != 0.0
    {
      ServiceableYear(a, year);
      LineIsMonotone(year - 1, h - 1, a.repayment);
    }
  }

  /** A negative opening balance is cleared in the first year. */
  lemma OverpaidServices(a: DebtInputs)
    requires a.rate >= 0.0 && a.repayment >= 0.0 && a.opening < 0.0
    ensures Service(a, 1) != 0.0 && Service(a, 2) == 0.0
  {
    ServiceZero(a, 1);
    ServiceZero(a, 2);
    assert Balance(a, 0) == a.opening;
    assert Balance(a, 1) == 0.0;
  }

  // ---------------------------------------------------------------- borrowing every year

  /** What is owed at the start of a year when every repayment is an amount borrowed. */
  function Borrowed(a: DebtInputs, n: nat): real
    requires n >= 1
  {
    if n == 1 then a.opening else Max(a.opening - a.repayment, 0.0) - (n - 2) as real * a.repayment
  }

  lemma {:induction false} BorrowingClosedForm(a: DebtInputs, n: nat)
    requires a.repayment < 0.0 && n >= 1
    ensures Balance(a, n - 1) == Borrowed(a, n)
  {
    if n > 2 {
      BorrowingClosedForm(a, n - 1);
      StepProduct(n - 2, a.repayment);
      ProductNonNegative((n - 3) as real, -a.repayment);
      assert (n - 3) as real * -a.repayment == -((n - 3) as real * a.repayment);
    } else if n == 2 {
      assert Balance(a, 0) == a.opening;
    }
  }

  /** Interest on what is owed never equals the amount borrowed, in any year. */
  ghost predicate InterestDiffers(a: DebtInputs)
  {
    forall year: nat | 1 <= year <= a.horizon ::
      Borrowed(a, year) < a.repayment || Borrowed(a, year) * a.rate != -a.repayment
  }

  lemma BorrowingServiceZero(a: DebtInputs, n: nat)
    requires n >= 1 && a.rate >= 0.0 && a.repayment < 0.0
    ensures Service(a, n) == 0.0 <==> Borrowed(a, n) >= a.repayment && Borrowed(a, n) * a.rate == -a.repayment
  {
    BorrowingClosedForm(a, n);
    var debt := Borrowed(a, n);
    hide Borrowed, Balance;
    assert Interest(a, n) == debt * a.rate;
    if debt < a.repayment {
      ProductNonNegative(-debt, a.rate);
      assert -debt * a.rate == -(debt * a.rate);
    }
  }

  /** With a negative repayment, a schedule exists exactly when no year's interest equals what it borrows. */
  lemma BorrowingScheduleIff(a: DebtInputs)
    requires a.horizon >= 1 && a.rate >= 0.0 && a.repayment < 0.0
    ensures AllDefined(a, a.horizon) <==> a.ebitda != 0.0 && a.growth != -1.0 && InterestDiffers(a)
  {
    hide Balance, Ebitda, Service, Borrowed;
    forall year: nat | 1 <= year <= a.horizon
      ensures Defined(a, year) <==>
              && a.ebitda != 0.0 && a.growth != -1.0
              && (Borrowed(a, year) < a.repayment || Borrowed(a, year) * a.rate != -a.repayment)
    {
      EbitdaNonZero(a, year);
      BorrowingServiceZero(a, year);
    }
    hide Defined;
    if AllDefined(a, a.horizon) {
      assert Defined(a, 1);
      forall year: nat | 1 <= year <= a.horizon
        ensures Borrowed(a, year) < a.repayment || Borrowed(a, year) * a.rate != -a.repayment
      {
        assert Defined(a, year);
      }
    }
  }

  /** A loan of one paid off in the first of two years has no schedule. */
  lemma RepaidEarlyRaises()
    ensures !AllDefined(DebtInputs(2, 0.1, 1.0, 5.0, 1.0, 0.0, 10.0, 1.0), 2)
  {
    var a := DebtInputs(2, 0.1, 1.0, 5.0, 1.0, 0.0, 10.0, 1.0);
    assert Balance(a, 0) == 1.0;
    assert Balance(a, 1) == 0.0;
    assert !Defined(a, 2);
  }

  // ---------------------------------------------------------------- covenants

  ghost predicate Improving(a: DebtInputs)
  {
    a.rate >= 0.0 && a.repayment >= 0.0 && a.opening > 0.0 && a.ebitda > 0.0 && a.growth >= 0.0
  }

  lemma {:induction false} EarningsGrow(a: DebtInputs, n: nat)
    requires Improving(a)
    ensures 0.0 < Ebitda(a, n) <= Ebitda(a, n + 1)
  {
    if n > 0 { EarningsGrow(a, n - 1); }
    ProductNonNegative(Ebitda(a, n), a.growth);
    assert Ebitda(a, n + 1) == Ebitda(a, n) + Ebitda(a, n) * a.growth;
  }

  lemma BalanceFalls(a: DebtInputs, n: nat)
    requires Improving(a)
    ensures 0.0 <= Balance(a, n + 1) <= Balance(a, n)
  {
    BalanceClosedForm(a, n);
  }

  lemma ServiceFalls(a: DebtInputs, n: nat)
    requires Improving(a) && n >= 1
    ensures 0.0 <= Service(a, n + 1) <= Service(a, n)
  {
    BalanceFalls(a, n - 1);
    var before, after := Balance(a, n - 1), Balance(a, n);
    ProductNonNegative(before - after, a.rate);
    ProductNonNegative(after, a.rate);
    assert before * a.rate == after * a.rate + (before - after) * a.rate;
  }

  /** Leverage only falls and coverage only rises, so a covenant that passes keeps passing. */
  lemma PassKeepsPassing(a: DebtInputs, n: nat)
    requires Improving(a) && n >= 1 && Defined(a, n) && Defined(a, n + 1)
    ensures Leverage(a, n + 1) <= Leverage(a, n) && Coverage(a, n) <= Coverage(a, n + 1)
    ensures Pass(a, n) ==> Pass(a, n + 1)
  {
    BalanceFalls(a, n);
    EarningsGrow(a, n);
    ServiceFalls(a, n);
    hide Balance, Ebitda, Service;
    QuotientFalls(Balance(a, n), Balance(a, n + 1), Ebitda(a, n), Ebitda(a, n + 1));
    QuotientFalls(Ebitda(a, n + 1), Ebitda(a, n), Service(a, n + 1), Service(a, n));
  }

  lemma {:induction false} FirstPassDecides(a: DebtInputs, n: nat)
    requires Improving(a) && n >= 1 && AllDefined(a, n)
    ensures Defined(a, 1) && Defined(a, n) && (Pass(a, 1) ==> Pass(a, n))
  {
    if n > 1 {
      FirstPassDecides(a, n - 1);
      hide Pass, Defined;
      PassKeepsPassing(a, n - 1);
    }
  }

  /** Every covenant passes exactly when the first year's does. */
  lemma AllPassIffFirst(a: DebtInputs, rows: seq<DebtRow>)
    requires Improving(a) && |rows| >= 1 && AreRows(a, rows)
    ensures AllPass(rows) <==> rows[0].pass
  {
    hide Defined, Pass;
    forall i | 0 <= i < |rows| ensures Defined(a, i + 1) && rows[i].pass == Pass(a, i + 1) {
      assert IsRow(a, i + 1, rows[i]);
    }
    forall year | 1 <= year <= |rows| ensures Defined(a, year) {
      assert IsRow(a, year, rows[year - 1]);
    }
    if rows[0].pass {
      forall i | 0 <= i < |rows| ensures rows[i].pass {
        assert AllDefined(a, i + 1);
        FirstPassDecides(a, i + 1);
      }
    } else {
      assert rows[0] in rows;
    }
  }

  const SHRINKING := DebtInputs(2, 0.0, 1.0, 3.5, 0.0, -0.5, 4.0, 8.0)

  lemma ShrinkingYears()
    ensures Balance(SHRINKING, 1) == 7.0 && Balance(SHRINKING, 2) == 6.0
    ensures Ebitda(SHRINKING, 1) == 2.0 && Ebitda(SHRINKING, 2) == 1.0
    ensures Service(SHRINKING, 1) == 1.0 && Service(SHRINKING, 2) == 1.0
  {
    assert Balance(SHRINKING, 0) == 8.0 && Ebitda(SHRINKING, 0) == 4.0;
    assert Balance(SHRINKING, 1) == 7.0;
    assert Interest(SHRINKING, 1) == 0.0 && Interest(SHRINKING, 2) == 0.0;
  }

  /** Shrinking earnings can fail a covenant that passed at first. */
  lemma ShrinkingEarningsMayFail()
    ensures Defined(SHRINKING, 1) && Defined(SHRINKING, 2) && Pass(SHRINKING, 1) && !Pass(SHRINKING, 2)
  {
    ShrinkingYears();
    hide Balance, Ebitda, Service;
    assert Leverage(SHRINKING, 1) == 3.5 && Leverage(SHRINKING, 2) == 6.0;
    assert Coverage(SHRINKING, 1) == 2.0;
    hide Leverage, Coverage;
  }
}
