/** The integrated three-statement forecast (`calculate_three_statement` in `python_forecast/plugin.py`). */
module ThreeStatement {
  import opened Reals
  import opened Results
  import opened Rounding

  datatype Inputs = Inputs(
    horizon: int, tax: real, growth: real, margin: real, depreciation: real, capex: real, workingCapital: real,
    revenue: real, cash: real, debt: real, equity: real)

  datatype InputError = BadHorizon | RateOutOfRange

  /** Published amounts, in hundredths. */
  datatype StatementRow = StatementRow(
    revenue: int, operatingProfit: int, taxExpense: int, netIncome: int,
    operatingCashFlow: int, capex: int, cashChange: int,
    cash: int, workingCapital: int, assets: int, debt: int, equity: int, liabilitiesAndEquity: int)

  predicate ValidInputs(a: Inputs)
  {
    && a.horizon >= 1 && IsRate(a.tax) && IsRate(a.margin) && IsRate(a.depreciation) && IsRate(a.capex)
    && IsRate(a.workingCapital)
  }

  // ---------------------------------------------------------------- the unrounded statements

  function Revenue(a: Inputs, n: nat): real
  {
    if n == 0 then a.revenue else Revenue(a, n - 1) * (1.0 + a.growth)
  }

  function Profit(a: Inputs, n: nat): real
  {
    Revenue(a, n) * a.margin
  }

  function Tax(a: Inputs, n: nat): real
  {
    var tax := Profit(a, n) * a.tax;
    if tax < 0.0 then 0.0 else tax
  }

  function NetIncome(a: Inputs, n: nat): real
  {
    Profit(a, n) - Tax(a, n)
  }

  function Depreciation(a: Inputs, n: nat): real
  {
    Revenue(a, n) * a.depreciation
  }

  function Capex(a: Inputs, n: nat): real
  {
    Revenue(a, n) * a.capex
  }

  function WorkingCapital(a: Inputs, n: nat): real
  {
    Revenue(a, n) * a.workingCapital
  }

  function OperatingCashFlow(a: Inputs, n: nat): real
    requires n >= 1
  {
    NetIncome(a, n) + Depreciation(a, n) - (WorkingCapital(a, n) - WorkingCapital(a, n - 1))
  }

  function CashChange(a: Inputs, n: nat): real
    requires n >= 1
  {
    OperatingCashFlow(a, n) - Capex(a, n)
  }

  function Cash(a: Inputs, n: nat): real
  {
    if n == 0 then a.cash else Cash(a, n - 1) + CashChange(a, n)
  }

  function Assets(a: Inputs, n: nat): real
  {
    Cash(a, n) + WorkingCapital(a, n) + Capex(a, n)
  }

  /** Opening equity, and from then on what balances the sheet. */
  function Equity(a: Inputs, n: nat): real
  {
    if n == 0 then a.equity else Assets(a, n) - a.debt
  }

  ghost predicate IsRow(a: Inputs, n: nat, row: StatementRow)
    requires n >= 1
  {
    && row.revenue == Cents(Revenue(a, n)) && row.operatingProfit == Cents(Profit(a, n))
    && row.taxExpense == Cents(Tax(a, n)) && row.netIncome == Cents(NetIncome(a, n))
    && row.operatingCashFlow == Cents(OperatingCashFlow(a, n)) && row.capex == Cents(Capex(a, n))
    && row.cashChange == Cents(CashChange(a, n))
    && row.cash == Cents(Cash(a, n)) && row.workingCapital == Cents(WorkingCapital(a, n))
    && row.assets == Cents(Assets(a, n)) && row.debt == Cents(a.debt)
    && row.equity == Cents(Equity(a, n)) && row.liabilitiesAndEquity == Cents(a.debt + Equity(a, n))
  }

  ghost predicate AreRows(a: Inputs, rows: seq<StatementRow>)
  {
    forall i | 0 <= i < |rows| :: IsRow(a, i + 1, rows[i])
  }

  /** The figures of a year that follow from its revenue. */
  method Flows(a: Inputs, ghost n: nat, revenue: real)
    returns (operatingProfit: real, taxExpense: real, depreciation: real, capex: real, workingCapital: real)
    requires revenue == Revenue(a, n)
    ensures operatingProfit == Profit(a, n) && taxExpense == Tax(a, n) && depreciation == Depreciation(a, n)
    ensures capex == Capex(a, n) && workingCapital == WorkingCapital(a, n)
  {
    operatingProfit := revenue * a.margin;
    var taxed := operatingProfit * a.tax;
    taxExpense := if taxed < 0.0 then 0.0 else taxed;
    depreciation, capex, workingCapital := revenue * a.depreciation, revenue * a.capex, revenue * a.workingCapital;
  }

  method YearRow(a: Inputs, n: nat, revenue: real, prior: real, opening: real)
    returns (row: StatementRow, workingCapital: real, cash: real)
    requires n >= 1 && revenue == Revenue(a, n) && prior == WorkingCapital(a, n - 1) && opening == Cash(a, n - 1)
    ensures IsRow(a, n, row) && workingCapital == WorkingCapital(a, n) && cash == Cash(a, n)
  {
    hide Cents, Revenue, Profit, Tax, Depreciation, Capex, WorkingCapital;
    var operatingProfit, taxExpense, depreciation, capex;
    operatingProfit, taxExpense, depreciation, capex, workingCapital := Flows(a, n, revenue);
    var netIncome := operatingProfit - taxExpense;
    var operatingCashFlow := netIncome + depreciation - (workingCapital - prior);
    var freeCashFlow := operatingCashFlow - capex;
    cash := opening + freeCashFlow;
    var assets := cash + workingCapital + capex;
    var equity := assets - a.debt;
    row := StatementRow(
      Cents(revenue), Cents(operatingProfit), Cents(taxExpense), Cents(netIncome), Cents(operatingCashFlow),
      Cents(capex), Cents(freeCashFlow), Cents(cash), Cents(workingCapital), Cents(assets), Cents(a.debt),
      Cents(equity), Cents(a.debt + equity));
  }

  method CalculateThreeStatement(a: Inputs) returns (r: Result<seq<StatementRow>, InputError>)
    ensures r.Ok? <==> ValidInputs(a)
    ensures r.Err? ==> r.error == if a.horizon < 1 then BadHorizon else RateOutOfRange
    ensures r.Ok? ==> |r.value| == a.horizon && AreRows(a, r.value)
  {
    if a.horizon < 1 {
      return Err(BadHorizon);
    }
    if OutOfRange(a.tax) || OutOfRange(a.margin) || OutOfRange(a.depreciation) || OutOfRange(a.capex)
      || OutOfRange(a.workingCapital)
    {
      return Err(RateOutOfRange);
    }
    var revenue, cash, prior, rows := a.revenue, a.cash, a.revenue * a.workingCapital, [];
    assert prior == WorkingCapital(a, 0);
    hide IsRow, WorkingCapital, Cash;
    assert cash == Cash(a, 0) by { OpeningCash(a); }
    for n := 1 to a.horizon + 1
      invariant revenue == Revenue(a, n - 1) && cash == Cash(a, n - 1) && prior == WorkingCapital(a, n - 1)
      invariant |rows| == n - 1 && AreRows(a, rows)
    {
      revenue := revenue * (1.0 + a.growth);
      var row;
      row, prior, cash := YearRow(a, n, revenue, prior, cash);
      rows := rows + [row];
    }
    r := Ok(rows);
  }

  lemma OpeningCash(a: Inputs)
    ensures Cash(a, 0) == a.cash
  {
  }

  // ---------------------------------------------------------------- what holds

  /** Sums over the first `n` years. */
  function Accrued(a: Inputs, n: nat): real
  {
    if n == 0 then 0.0 else Accrued(a, n - 1) + NetIncome(a, n) + Depreciation(a, n)
  }

  function Invested(a: Inputs, n: nat): real
  {
    if n == 0 then 0.0 else Invested(a, n - 1) + Capex(a, n)
  }

  /** Closing cash is opening cash, plus income and depreciation, less investment and the growth of working capital. */
  lemma {:induction false} CashReconciles(a: Inputs, n: nat)
    ensures Cash(a, n) == a.cash + Accrued(a, n) - Invested(a, n) - (WorkingCapital(a, n) - WorkingCapital(a, 0))
  {
    hide WorkingCapital, Capex, NetIncome, Depreciation;
    if n > 0 {
      CashReconciles(a, n - 1);
    }
  }

  // ---------------------------------------------------------------- what does not

  /** Equity rolls forward in a year when it grows by that year's net income. */
  predicate RollsForward(a: Inputs, n: nat)
    requires n >= 1
  {
    Equity(a, n) == Equity(a, n - 1) + NetIncome(a, n)
  }

  /** In the first year, equity rolls forward exactly when opening equity already was this balance. */
  lemma FirstYearRollsForwardIff(a: Inputs)
    ensures RollsForward(a, 1) <==> a.equity == a.cash + WorkingCapital(a, 0) + Depreciation(a, 1) - a.debt
  {
    hide Revenue, NetIncome, Depreciation, Capex, WorkingCapital;
    assert Cash(a, 0) == a.cash;
  }

  /** In a later year, exactly when it depreciates what the year before invested. */
  lemma LaterYearRollsForwardIff(a: Inputs, n: nat)
    requires n >= 2
    ensures RollsForward(a, n) <==> Depreciation(a, n) == Capex(a, n - 1)
  {
    hide Revenue, NetIncome, Depreciation, Capex, WorkingCapital;
  }

  lemma {:induction false} RevenueZero(a: Inputs, n: nat)
    ensures Revenue(a, n) == 0.0 <==> a.revenue == 0.0 || (n >= 1 && a.growth == -1.0)
  {
    if n > 0 {
      RevenueZero(a, n - 1);
      ProductZero(Revenue(a, n - 1), 1.0 + a.growth);
    }
  }

  lemma LaterYearRates(a: Inputs, n: nat)
    requires n >= 2
    ensures Depreciation(a, n) == Capex(a, n - 1) <==>
            a.revenue == 0.0 || a.growth == -1.0 || (1.0 + a.growth) * a.depreciation == a.capex
  {
    RevenueZero(a, n - 1);
    var revenue := Revenue(a, n - 1);
    assert Revenue(a, n) == revenue * (1.0 + a.growth);
    hide Revenue;
    Factored(revenue, 1.0 + a.growth, a.depreciation, a.capex);
    ProductZero(revenue, (1.0 + a.growth) * a.depreciation - a.capex);
  }

  /**
   * Equity rolls forward by net income in every year exactly when opening equity agrees with the other
   * opening balances and, past the first year, depreciation at the new revenue pays for last year's investment.
   */
  lemma RollsForwardIff(a: Inputs)
    requires a.horizon >= 1
    ensures (forall n | 1 <= n <= a.horizon :: RollsForward(a, n)) <==>
            && a.equity == a.cash + WorkingCapital(a, 0) + Depreciation(a, 1) - a.debt
            && (a.horizon == 1 || a.revenue == 0.0 || a.growth == -1.0 || (1.0 + a.growth) * a.depreciation == a.capex)
  {
    hide RollsForward, WorkingCapital, Depreciation;
    FirstYearRollsForwardIff(a);
    forall n | 2 <= n <= a.horizon
      ensures RollsForward(a, n) <==>
              a.revenue == 0.0 || a.growth == -1.0 || (1.0 + a.growth) * a.depreciation == a.capex
    {
      LaterYearRollsForwardIff(a, n);
      LaterYearRates(a, n);
    }
    if a.horizon >= 2 && forall n | 1 <= n <= a.horizon :: RollsForward(a, n) {
      assert RollsForward(a, 2);
    }
    if forall n | 1 <= n <= a.horizon :: RollsForward(a, n) {
      assert RollsForward(a, 1);
    }
  }

  /** A company whose books agree, growing by a tenth, whose retained earnings do not roll forward. */
  lemma RetainedEarningsMayNotRollForward()
    ensures exists a ::
              ValidInputs(a) && a.equity == a.cash + WorkingCapital(a, 0) + Depreciation(a, 1) - a.debt
              && !RollsForward(a, 2)
  {
    var a := Inputs(2, 0.2, 0.1, 0.3, 0.1, 0.5, 0.0, 100.0, 50.0, 11.0, 50.0);
    assert Revenue(a, 0) == 100.0;
    assert Revenue(a, 1) == 110.0;
    assert Depreciation(a, 1) == 11.0 && WorkingCapital(a, 0) == 0.0;
    hide Revenue;
    LaterYearRollsForwardIff(a, 2);
    LaterYearRates(a, 2);
    hide RollsForward, Depreciation, WorkingCapital;
  }

  /** Nothing published depends on opening equity. */
  lemma OpeningEquityIsIgnored(a: Inputs, equity: real, rows: seq<StatementRow>)
    requires AreRows(a, rows)
    ensures AreRows(a.(equity := equity), rows)
  {
    var b := a.(equity := equity);
    hide Revenue;
    forall i | 0 <= i < |rows| ensures IsRow(b, i + 1, rows[i]) {
      SameFigures(a, b, i + 1);
      assert IsRow(a, i + 1, rows[i]);
      hide Cents, Profit, Tax, NetIncome, OperatingCashFlow, CashChange, Depreciation, Capex, WorkingCapital, Cash,
           Assets, Equity;
    }
  }

  lemma {:induction false} SameRevenue(a: Inputs, b: Inputs, n: nat)
    requires b == a.(equity := b.equity)
    ensures Revenue(a, n) == Revenue(b, n)
  {
    if n > 0 {
      SameRevenue(a, b, n - 1);
    }
  }

  lemma SameFlows(a: Inputs, b: Inputs, n: nat)
    requires b == a.(equity := b.equity)
    ensures Revenue(a, n) == Revenue(b, n) && Profit(a, n) == Profit(b, n) && Tax(a, n) == Tax(b, n)
    ensures NetIncome(a, n) == NetIncome(b, n) && Depreciation(a, n) == Depreciation(b, n)
    ensures Capex(a, n) == Capex(b, n) && WorkingCapital(a, n) == WorkingCapital(b, n)
  {
    SameRevenue(a, b, n);
    hide Revenue;
  }

  lemma {:induction false} SameCash(a: Inputs, b: Inputs, n: nat)
    requires b == a.(equity := b.equity)
    ensures Cash(a, n) == Cash(b, n)
  {
    if n > 0 {
      SameCash(a, b, n - 1);
      SameFlows(a, b, n);
      SameFlows(a, b, n - 1);
      hide Revenue, Profit, Tax, NetIncome, Depreciation, Capex, WorkingCapital;
    }
  }

  lemma SameFigures(a: Inputs, b: Inputs, n: nat)
    requires b == a.(equity := b.equity) && n >= 1
    ensures Revenue(a, n) == Revenue(b, n) && Profit(a, n) == Profit(b, n) && Tax(a, n) == Tax(b, n)
    ensures NetIncome(a, n) == NetIncome(b, n) && OperatingCashFlow(a, n) == OperatingCashFlow(b, n)
    ensures Capex(a, n) == Capex(b, n) && CashChange(a, n) == CashChange(b, n) && Cash(a, n) == Cash(b, n)
    ensures WorkingCapital(a, n) == WorkingCapital(b, n) && Assets(a, n) == Assets(b, n) && Equity(a, n) == Equity(b, n)
  {
    SameFlows(a, b, n);
    SameFlows(a, b, n - 1);
    SameCash(a, b, n);
    hide Revenue, Profit, Tax, NetIncome, Depreciation, Capex, WorkingCapital, Cash;
  }
}
