/** Discounted cash flow valuation (`calculate_dcf` in `python_forecast/plugin.py`). */
module Valuation {
  import opened Reals
  import opened Results
  import opened Rounding

  datatype DcfInputs = DcfInputs(
    horizon: int, tax: real, discount: real, terminalGrowth: real, growth: real,
    margin: real, depreciation: real, capex: real, workingCapital: real,
    revenue: real, netDebt: real)

  datatype DcfError = BadHorizon | RateOutOfRange | DiscountTooLow

  /** Published amounts are in hundredths, discount factors in millionths. */
  datatype DcfRow = DcfRow(cashFlow: int, factor: int, presentValue: int)

  datatype DcfResult = DcfResult(
    rows: seq<DcfRow>, terminal: int, terminalPresentValue: int, enterprise: int, netDebt: int, equity: int)

  predicate ValidInputs(a: DcfInputs)
  {
    && a.horizon >= 1
    && IsRate(a.tax) && IsRate(a.discount) && IsRate(a.margin)
    && IsRate(a.depreciation) && IsRate(a.capex) && IsRate(a.workingCapital)
    && a.discount > a.terminalGrowth
  }

  function Power(b: real, n: nat): real
  {
    if n == 0 then 1.0 else Power(b, n - 1) * b
  }

  // ---------------------------------------------------------------- the unrounded valuation

  /** Revenue after `n` years of growth. */
  function Revenue(a: DcfInputs, n: nat): real
  {
    a.revenue * Power(1.0 + a.growth, n)
  }

  /** Free cash flow of year `n`. */
  function CashFlow(a: DcfInputs, n: nat): real
    requires n >= 1
  {
    var revenue, prior := Revenue(a, n), Revenue(a, n - 1);
    revenue * a.margin * (1.0 - a.tax) + revenue * a.depreciation - revenue * a.capex
    - (revenue * a.workingCapital - prior * a.workingCapital)
  }

  function Factor(a: DcfInputs, n: nat): real
    requires a.discount >= 0.0
  {
    PowerPositive(1.0 + a.discount, n);
    1.0 / Power(1.0 + a.discount, n)
  }

  function Discounted(a: DcfInputs, n: nat): real
    requires n >= 1 && a.discount >= 0.0
  {
    CashFlow(a, n) * Factor(a, n)
  }

  /** Present value of the first `n` cash flows. */
  function PresentValues(a: DcfInputs, n: nat): real
    requires a.discount >= 0.0
  {
    if n == 0 then 0.0 else PresentValues(a, n - 1) + Discounted(a, n)
  }

  function Terminal(a: DcfInputs, n: nat): real
    requires n >= 1 && a.discount > a.terminalGrowth
  {
    CashFlow(a, n) * (1.0 + a.terminalGrowth) / (a.discount - a.terminalGrowth)
  }

  function TerminalPresentValue(a: DcfInputs, n: nat): real
    requires n >= 1 && a.discount > a.terminalGrowth && a.discount >= 0.0
  {
    PowerPositive(1.0 + a.discount, n);
    Terminal(a, n) / Power(1.0 + a.discount, n)
  }

  /** Enterprise value over a horizon of `n` years. */
  function Enterprise(a: DcfInputs, n: nat): real
    requires n >= 1 && a.discount > a.terminalGrowth && a.discount >= 0.0
  {
    PresentValues(a, n) + TerminalPresentValue(a, n)
  }

  ghost predicate IsRow(a: DcfInputs, year: nat, row: DcfRow)
    requires year >= 1 && a.discount >= 0.0
  {
    && row.cashFlow == Cents(CashFlow(a, year))
    && row.factor == HalfEven(Factor(a, year) * 1000000.0)
    && row.presentValue == Cents(Discounted(a, year))
  }

  ghost predicate IsResult(a: DcfInputs, r: DcfResult)
    requires ValidInputs(a)
  {
    && |r.rows| == a.horizon
    && (forall i | 0 <= i < a.horizon :: IsRow(a, i + 1, r.rows[i]))
    && r.terminal == Cents(Terminal(a, a.horizon))
    && r.terminalPresentValue == Cents(TerminalPresentValue(a, a.horizon))
    && r.enterprise == Cents(Enterprise(a, a.horizon))
    && r.netDebt == Cents(a.netDebt)
    && r.equity == Cents(Enterprise(a, a.horizon) - a.netDebt)
  }

  lemma {:induction false} PowerPositive(b: real, n: nat)
    requires b > 0.0
    ensures Power(b, n) > 0.0
  {
    if n > 0 {
      PowerPositive(b, n - 1);
      ProductPositive(Power(b, n - 1), b);
    }
  }

  lemma RevenueGrows(a: DcfInputs, n: nat)
    ensures Revenue(a, n + 1) == Revenue(a, n) * (1.0 + a.growth)
  {
    assert Power(1.0 + a.growth, n + 1) == Power(1.0 + a.growth, n) * (1.0 + a.growth);
    Associate(a.revenue, Power(1.0 + a.growth, n), 1.0 + a.growth);
  }

  method CalculateDcf(a: DcfInputs) returns (r: Result<DcfResult, DcfError>)
    ensures r.Ok? <==> ValidInputs(a)
    ensures r.Err? ==>
              r.error == if a.horizon < 1 then BadHorizon
                         else if !IsRate(a.tax) || !IsRate(a.discount) then RateOutOfRange
                         else if a.discount <= a.terminalGrowth then DiscountTooLow
                         else RateOutOfRange
    ensures r.Ok? ==> IsResult(a, r.value)
  {
    if a.horizon < 1 {
      return Err(BadHorizon);
    }
    if OutOfRange(a.tax) || OutOfRange(a.discount) {
      return Err(RateOutOfRange);
    }
    if a.discount <= a.terminalGrowth {
      return Err(DiscountTooLow);
    }
    if OutOfRange(a.margin) || OutOfRange(a.depreciation) || OutOfRange(a.capex) || OutOfRange(a.workingCapital) {
      return Err(RateOutOfRange);
    }
    hide Cents, CashFlow, IsRow;
    assert ValidInputs(a);
    var rows, presentValues, lastCashFlow := DiscountYears(a);
    var terminal := lastCashFlow * (1.0 + a.terminalGrowth) / (a.discount - a.terminalGrowth);
    PowerPositive(1.0 + a.discount, a.horizon);
    var terminalPresentValue := terminal / Power(1.0 + a.discount, a.horizon);
    var enterprise := presentValues + terminalPresentValue;
    r := Ok(DcfResult(rows, Cents(terminal), Cents(terminalPresentValue), Cents(enterprise), Cents(a.netDebt),
                      Cents(enterprise - a.netDebt)));
    assert terminal == Terminal(a, a.horizon);
    assert terminalPresentValue == TerminalPresentValue(a, a.horizon);
    assert enterprise == Enterprise(a, a.horizon);
    assert IsResult(a, r.value);
  }

  /** The yearly loop. */
  method DiscountYears(a: DcfInputs) returns (rows: seq<DcfRow>, presentValues: real, lastCashFlow: real)
    requires ValidInputs(a)
    ensures |rows| == a.horizon
    ensures forall i | 0 <= i < a.horizon :: IsRow(a, i + 1, rows[i])
    ensures presentValues == PresentValues(a, a.horizon)
    ensures lastCashFlow == CashFlow(a, a.horizon)
  {
    hide Cents, HalfEven;
    var revenue := a.revenue;
    var priorWorkingCapital := revenue * a.workingCapital;
    rows, presentValues, lastCashFlow := [], 0.0, 0.0;
    for year := 1 to a.horizon + 1
      invariant |rows| == year - 1
      invariant revenue == Revenue(a, year - 1)
      invariant priorWorkingCapital == revenue * a.workingCapital
      invariant presentValues == PresentValues(a, year - 1)
      invariant year > 1 ==> lastCashFlow == CashFlow(a, year - 1)
      invariant forall i | 0 <= i < |rows| :: IsRow(a, i + 1, rows[i])
    {
      RevenueGrows(a, year - 1);
      revenue := revenue * (1.0 + a.growth);
      var ebit := revenue * a.margin;
      var workingCapital := revenue * a.workingCapital;
      lastCashFlow := ebit * (1.0 - a.tax) + revenue * a.depreciation - revenue * a.capex
                      - (workingCapital - priorWorkingCapital);
      assert lastCashFlow == CashFlow(a, year);
      var factor := Factor(a, year);
      var presentValue := lastCashFlow * factor;
      assert presentValue == Discounted(a, year);
      presentValues := presentValues + presentValue;
      assert presentValue == CashFlow(a, year) * Factor(a, year);
      var row := DcfRow(Cents(lastCashFlow), HalfEven(factor * 1000000.0), Cents(presentValue));
      assert IsRow(a, year, row);
      rows := rows + [row];
      priorWorkingCapital := workingCapital;
    }
  }

  // ---------------------------------------------------------------- properties

  /** Cash flow per unit of the previous year's revenue. */
  function CashYield(a: DcfInputs): real
  {
    (1.0 + a.growth) * (a.margin * (1.0 - a.tax) + a.depreciation - a.capex) - a.growth * a.workingCapital
  }

  lemma CashFlowOfRevenue(a: DcfInputs, n: nat)
    ensures CashFlow(a, n + 1) == Revenue(a, n) * CashYield(a)
  {
    RevenueGrows(a, n);
    YieldAlgebra(Revenue(a, n), a.growth, a.margin, a.tax, a.depreciation, a.capex, a.workingCapital);
  }

  lemma YieldAlgebra(x: real, g: real, m: real, t: real, d: real, c: real, w: real)
    ensures x * (1.0 + g) * m * (1.0 - t) + x * (1.0 + g) * d - x * (1.0 + g) * c - (x * (1.0 + g) * w - x * w) ==
            x * ((1.0 + g) * (m * (1.0 - t) + d - c) - g * w)
  {
    var y := x * (1.0 + g);
    assert y * m * (1.0 - t) == y * (m * (1.0 - t));
    assert y * (m * (1.0 - t)) + y * d - y * c == y * (m * (1.0 - t) + d - c);
    var k := m * (1.0 - t) + d - c;
    assert y * k == x * ((1.0 + g) * k);
    assert y * w - x * w == x * (g * w);
  }

  /** Cash flows grow at the revenue growth rate. */
  lemma CashFlowGrows(a: DcfInputs, n: nat)
    requires n >= 1
    ensures CashFlow(a, n + 1) == CashFlow(a, n) * (1.0 + a.growth)
  {
    CashFlowOfRevenue(a, n - 1);
    CashFlowOfRevenue(a, n);
    RevenueGrows(a, n - 1);
    Rearrange(Revenue(a, n - 1), 1.0 + a.growth, CashYield(a));
  }

  function Product(x: real, y: real, z: real): real
  {
    x * y * z
  }

  /** The last cash flow over the spread of the discount rate above terminal growth. */
  function Capitalized(a: DcfInputs, n: nat): real
    requires n >= 1 && a.discount > a.terminalGrowth
  {
    CashFlow(a, n) / (a.discount - a.terminalGrowth)
  }

  lemma CapitalizedGrows(a: DcfInputs, n: nat)
    requires n >= 1 && a.discount > a.terminalGrowth
    ensures Capitalized(a, n + 1) == Capitalized(a, n) * (1.0 + a.growth)
  {
    CashFlowGrows(a, n);
    hide CashFlow;
    ScaledQuotient(CashFlow(a, n), 1.0 + a.growth, a.discount - a.terminalGrowth);
  }

  lemma TerminalOfCapitalized(a: DcfInputs, n: nat)
    requires ValidInputs(a) && n >= 1
    ensures Discounted(a, n) == Product(Capitalized(a, n), a.discount - a.terminalGrowth, Factor(a, n))
    ensures TerminalPresentValue(a, n) == Product(Capitalized(a, n), 1.0 + a.terminalGrowth, Factor(a, n))
  {
    hide CashFlow;
    var s := a.discount - a.terminalGrowth;
    QuotientTimes(CashFlow(a, n), s);
    ScaledQuotient(CashFlow(a, n), 1.0 + a.terminalGrowth, s);
    PowerPositive(1.0 + a.discount, n);
    TimesReciprocal(Terminal(a, n), Power(1.0 + a.discount, n));
  }

  lemma FactorStep(a: DcfInputs, n: nat)
    requires a.discount >= 0.0
    ensures Factor(a, n) == Factor(a, n + 1) * (1.0 + a.discount)
  {
    var p, u := Power(1.0 + a.discount, n), 1.0 + a.discount;
    PowerPositive(u, n);
    PowerPositive(u, n + 1);
    assert Power(u, n + 1) == p * u;
    hide Power;
    QuotientTimes(1.0, p);
    QuotientTimes(1.0, p * u);
    Associate(1.0 / (p * u), u, p);
    CancelFactor(1.0 / p, 1.0 / (p * u) * u, p);
  }

  /** `x` is the year's present value, `y` and `y'` the terminal ones before and after it. */
  lemma HorizonAlgebra(e: real, g: real, t: real, d: real, w: real, e': real, w': real, x: real, y: real, y': real)
    requires e' == e * (1.0 + g) && w == w' * (1.0 + d)
    requires x == Product(e', d - t, w') && y' == Product(e', 1.0 + t, w') && y == Product(e, 1.0 + t, w)
    ensures x + y' - y == Product(e, g - t, w)
  {
    assert x == e * (1.0 + g) * (d - t) * w';
    assert y' == e * (1.0 + g) * (1.0 + t) * w';
    assert y == e * (1.0 + t) * (w' * (1.0 + d));
    assert e * (g - t) * w == e * (g - t) * (w' * (1.0 + d));
  }

  /** Extending the horizon by a year changes enterprise value by exactly this much. */
  lemma HorizonStep(a: DcfInputs, n: nat)
    requires ValidInputs(a) && n >= 1
    ensures Enterprise(a, n + 1) - Enterprise(a, n) ==
            Product(Capitalized(a, n), a.growth - a.terminalGrowth, Factor(a, n))
  {
    CapitalizedGrows(a, n);
    TerminalOfCapitalized(a, n);
    TerminalOfCapitalized(a, n + 1);
    FactorStep(a, n);
    hide CashFlow, Capitalized, Factor, TerminalPresentValue, Discounted, Product;
    assert PresentValues(a, n + 1) == PresentValues(a, n) + Discounted(a, n + 1);
    HorizonAlgebra(
      Capitalized(a, n), a.growth, a.terminalGrowth, a.discount, Factor(a, n), Capitalized(a, n + 1), Factor(a, n + 1),
      Discounted(a, n + 1), TerminalPresentValue(a, n), TerminalPresentValue(a, n + 1));
  }

  lemma {:induction false} NoFlowEver(a: DcfInputs, n: nat)
    requires n >= 1 && CashFlow(a, 1) == 0.0
    ensures CashFlow(a, n) == 0.0
  {
    if n > 1 {
      NoFlowEver(a, n - 1);
      CashFlowGrows(a, n - 1);
    }
  }

  lemma TripleZero(x: real, y: real, z: real)
    requires z > 0.0
    ensures Product(x, y, z) == 0.0 <==> x == 0.0 || y == 0.0
  {
    if x * y * z == 0.0 {
      CancelFactor(x * y, 0.0, z);
    }
  }

  lemma CapitalizedZero(a: DcfInputs, n: nat)
    requires n >= 1 && a.discount > a.terminalGrowth
    ensures Capitalized(a, n) == 0.0 <==> CashFlow(a, n) == 0.0
  {
    hide CashFlow;
    QuotientTimes(CashFlow(a, n), a.discount - a.terminalGrowth);
  }

  lemma FactorPositive(a: DcfInputs, n: nat)
    requires a.discount >= 0.0
    ensures Factor(a, n) > 0.0
  {
    PowerPositive(1.0 + a.discount, n);
    ReciprocalPositive(Power(1.0 + a.discount, n));
  }

  /** A year more leaves enterprise value alone exactly when the growth rates agree or the last cash flow is zero. */
  lemma StepZero(a: DcfInputs, n: nat)
    requires ValidInputs(a) && n >= 1
    ensures Enterprise(a, n + 1) == Enterprise(a, n) <==> a.growth == a.terminalGrowth || CashFlow(a, n) == 0.0
  {
    HorizonStep(a, n);
    CapitalizedZero(a, n);
    FactorPositive(a, n);
    hide CashFlow, Enterprise, Capitalized, Factor;
    TripleZero(Capitalized(a, n), a.growth - a.terminalGrowth, Factor(a, n));
  }

  lemma {:induction false} EveryStepZero(a: DcfInputs, n: nat)
    requires ValidInputs(a) && n >= 1
    requires a.growth == a.terminalGrowth || CashFlow(a, 1) == 0.0
    ensures Enterprise(a, n) == Enterprise(a, 1)
  {
    if n > 1 {
      EveryStepZero(a, n - 1);
      StepZero(a, n - 1);
      if CashFlow(a, 1) == 0.0 { NoFlowEver(a, n - 1); }
    }
  }

  /**
   * Enterprise value is the same for every horizon exactly when revenue grows at the terminal
   * rate, or there is no cash flow at all.
   */
  lemma HorizonIndependentIff(a: DcfInputs)
    requires ValidInputs(a)
    ensures (forall n: nat | n >= 1 :: Enterprise(a, n) == Enterprise(a, 1)) <==>
            a.growth == a.terminalGrowth || CashFlow(a, 1) == 0.0
  {
    StepZero(a, 1);
    hide CashFlow, Enterprise;
    if a.growth == a.terminalGrowth || CashFlow(a, 1) == 0.0 {
      forall n: nat | n >= 1 ensures Enterprise(a, n) == Enterprise(a, 1) {
        EveryStepZero(a, n);
      }
    } else {
      assert Enterprise(a, 2) != Enterprise(a, 1);
    }
  }

  /** A valuation whose growth rates agree is the first cash flow over the spread, whatever the horizon. */
  lemma PerpetuityValue(a: DcfInputs, n: nat)
    requires ValidInputs(a) && n >= 1 && a.growth == a.terminalGrowth
    ensures Enterprise(a, n) == CashFlow(a, 1) / (a.discount - a.growth)
  {
    EveryStepZero(a, n);
    TerminalOfCapitalized(a, 1);
    FactorStep(a, 0);
    assert Factor(a, 0) == 1.0 by { assert Power(1.0 + a.discount, 0) == 1.0; }
    assert PresentValues(a, 1) == Discounted(a, 1) by { hide Discounted; assert PresentValues(a, 0) == 0.0; }
    assert Capitalized(a, 1) == CashFlow(a, 1) / (a.discount - a.growth);
    hide CashFlow, Capitalized, Factor, TerminalPresentValue, Discounted, Product;
    PerpetuityAlgebra(Capitalized(a, 1), a.growth, a.discount, Factor(a, 1));
  }

  lemma PerpetuityAlgebra(e: real, g: real, d: real, w: real)
    requires w * (1.0 + d) == 1.0
    ensures Product(e, d - g, w) + Product(e, 1.0 + g, w) == e
  {
    assert e * (d - g) * w + e * (1.0 + g) * w == e * (w * (1.0 + d));
  }

  /** For a positive discount rate the factors lie in (0,1) and strictly decrease. */
  lemma FactorsDecrease(a: DcfInputs, n: nat)
    requires a.discount > 0.0 && n >= 1
    ensures 0.0 < Factor(a, n) < 1.0
    ensures Factor(a, n + 1) < Factor(a, n)
  {
    var u := 1.0 + a.discount;
    PowerPositive(u, n);
    PowerPositive(u, n + 1);
    PowerAboveOne(u, n);
    GrowsBy(Power(u, n), u);
    ReciprocalOrder(1.0, Power(u, n));
    ReciprocalOrder(Power(u, n), Power(u, n + 1));
  }

  lemma {:induction false} PowerAboveOne(b: real, n: nat)
    requires b > 1.0 && n >= 1
    ensures Power(b, n) > 1.0
  {
    if n > 1 {
      PowerAboveOne(b, n - 1);
      GrowsBy(Power(b, n - 1), b);
    } else {
      assert Power(b, 0) == 1.0;
    }
  }

  lemma GrowsBy(x: real, b: real)
    requires x > 0.0 && b > 1.0
    ensures x * b > x
  {
    ProductPositive(x, b - 1.0);
    assert x * b == x + x * (b - 1.0);
  }

  /** The published bridge from enterprise to equity value is exact to a hundredth. */
  lemma EquityBridge(a: DcfInputs, r: DcfResult)
    requires ValidInputs(a) && IsResult(a, r)
    ensures -1 <= r.equity - (r.enterprise - r.netDebt) <= 1
  {
    DifferenceWithinCent(Enterprise(a, a.horizon), a.netDebt);
  }
}
