/** What a recalculated budget workbook shows (`native_xlsx/provider.py`). */
module Recalculation {
  import opened Results
  import opened Columns
  import opened Rounding
  import opened Forecast
  import opened Workbook

  lemma NumberB()
    ensures Columns.Number("B") == 2
  {
    assert "B"[..0] == "";
  }

  // ---------------------------------------------------------------- emission is accepted

  lemma EmittedWidths(inputs: Inputs, history: History, book: Book)
    requires Emittable(inputs, history) && IsEmitted(inputs, history, book)
    ensures Width(book, Budget) == inputs.horizon
    ensures Width(book, Actuals) == |history.periods|
  {
    var budget, actuals := book[Budget], book[Actuals];
    assert forall row | 0 <= row < 5 :: |budget[row]| == inputs.horizon + 1;
    assert |actuals[0]| == |history.periods| + 1;
  }

  /** The validator accepts every emitted workbook, whatever the horizon and the length of the history. */
  lemma EmittedIsAccepted(inputs: Inputs, history: History, book: Book)
    requires Emittable(inputs, history) && IsEmitted(inputs, history, book)
    ensures Accepted(book)
  {
    EmittedWidths(inputs, history, book);
    forall i | 0 <= i < inputs.horizon ensures ColumnAccepted(book, |history.periods|, i) {
      EmittedColumn(inputs, history, book, i);
    }
    assert book[Checks][1][1] == Formula(HorizonCheck(inputs.horizon));
  }

  lemma EmittedColumn(inputs: Inputs, history: History, book: Book, i: nat)
    requires IsEmitted(inputs, history, book) && i < inputs.horizon
    ensures ColumnAccepted(book, |history.periods|, i)
  {
    var grid := book[Budget];
    assert grid[1][i + 1] == Text("Forecast");
    assert grid[2][i + 1] == Formula(ForecastFormula(|history.periods|, i, 3));
    assert grid[3][i + 1] == Formula(ForecastFormula(|history.periods|, i, 4));
    assert grid[4][i + 1] == Formula(ForecastFormula(|history.periods|, i, 5));
  }

  // ---------------------------------------------------------------- acceptance fixes the meaning

  /** The base value, growth and delta that a forecast row starts from. */
  datatype Base = Base(value: real, rate: real, delta: real)

  ghost predicate HasBase(book: Book, v: Valuation, row: nat, base: Base)
    requires row == 3 || row == 4
  {
    && v(Address(Actuals, Width(book, Actuals) + 1, row - 1)) == Num(base.value)
    && v(Address(Assumptions, 2, RATE_ROWS[row])) == Num(base.rate)
    && v(Address(Assumptions, 2, DELTA_ROWS[row])) == Num(base.delta)
  }

  /** A base after `n` periods, and one more period on top of a value. */
  ghost function After(base: Base, n: nat): real
  {
    Compounded(base.value, 1.0 + base.rate + base.delta, n)
  }

  ghost function Grow(x: real, base: Base): real
  {
    x * (1.0 + base.rate + base.delta)
  }

  lemma AfterGrows(base: Base, n: nat)
    ensures After(base, 0) == base.value
    ensures After(base, n + 1) == Grow(After(base, n), base)
  {
  }

  lemma EvalOne(home: Sheet, v: Valuation)
    ensures Eval(Const(1.0), home, v) == Num(1.0)
  {
  }

  lemma EvalSum(l: Expr, r: Expr, home: Sheet, v: Valuation, x: real, y: real)
    requires Eval(l, home, v) == Num(x) && Eval(r, home, v) == Num(y)
    ensures Eval(Add(l, r), home, v) == Num(x + y)
  {
  }

  lemma EvalProduct(l: Expr, r: Expr, home: Sheet, v: Valuation, x: real, y: real)
    requires Eval(l, home, v) == Num(x) && Eval(r, home, v) == Num(y)
    ensures Eval(Mul(l, r), home, v) == Num(x * y)
  {
    assert Times(x, y) == x * y;
    hide Times;
  }

  lemma EvalRead(ref: Ref, home: Sheet, v: Valuation)
    ensures Eval(Read(ref), home, v) == v(Resolve(ref, home))
  {
  }

  lemma EvalAssumption(row: nat, home: Sheet, v: Valuation)
    ensures Eval(AssumptionCell(row), home, v) == v(Address(Assumptions, 2, row))
  {
    EvalRead(Ref(Some(Assumptions), "B", row), home, v);
    assert Columns.Number("B") == 2;
  }

  lemma GrowthValue(source: Ref, row: nat, home: Sheet, v: Valuation, x: real, base: Base)
    requires row == 3 || row == 4
    requires v(Resolve(source, home)) == Num(x)
    requires v(Address(Assumptions, 2, RATE_ROWS[row])) == Num(base.rate)
    requires v(Address(Assumptions, 2, DELTA_ROWS[row])) == Num(base.delta)
    ensures Eval(Growth(source, RATE_ROWS[row], DELTA_ROWS[row]), home, v) == Num(Grow(x, base))
  {
    var rate, delta := AssumptionCell(RATE_ROWS[row]), AssumptionCell(DELTA_ROWS[row]);
    hide AssumptionCell, Resolve, Eval;
    EvalAssumption(RATE_ROWS[row], home, v);
    EvalAssumption(DELTA_ROWS[row], home, v);
    EvalRead(source, home, v);
    EvalOne(home, v);
    EvalSum(Const(1.0), rate, home, v, 1.0, base.rate);
    EvalSum(Add(Const(1.0), rate), delta, home, v, 1.0 + base.rate, base.delta);
    EvalProduct(Read(source), Add(Add(Const(1.0), rate), delta), home, v, x, 1.0 + base.rate + base.delta);
  }

  lemma ForecastCell(book: Book, v: Valuation, row: nat, i: nat)
    requires Accepted(book) && Recalculated(book, v) && 3 <= row <= 5 && i < Width(book, Budget)
    ensures v(Address(Budget, i + 2, row)) == Eval(ForecastFormula(Width(book, Actuals), i, row), Budget, v)
  {
    var history := Width(book, Actuals);
    assert ColumnAccepted(book, history, i);
    assert Holds(book, Budget, i + 2, row, Formula(ForecastFormula(history, i, row)));
    hide ForecastFormula, Eval;
    assert v(Address(Budget, i + 2, row)) == CellValue(book, Address(Budget, i + 2, row), v);
  }

  lemma SourceAddress(history: nat, i: nat, row: nat)
    requires row >= 1
    ensures Resolve(Source(history, i, row), Budget) ==
            if i == 0 then Address(Actuals, history + 1, row - 1) else Address(Budget, i + 1, row)
  {
    NumberOfLetters(history + 1);
    NumberOfLetters(i + 1);
  }

  /** The forecast cells of an accepted workbook compound their base, column by column. */
  lemma {:induction false} AcceptedCompounds(book: Book, v: Valuation, row: nat, base: Base, i: nat)
    requires Accepted(book) && Recalculated(book, v) && (row == 3 || row == 4)
    requires HasBase(book, v, row, base) && i < Width(book, Budget)
    ensures v(Address(Budget, i + 2, row)) == Num(After(base, i + 1))
  {
    hide After, Grow, Source, Eval;
    ForecastCell(book, v, row, i);
    AfterGrows(base, i);
    if i > 0 {
      AcceptedCompounds(book, v, row, base, i - 1);
    }
    hide Accepted, Recalculated, Width;
    SourceAddress(Width(book, Actuals), i, row);
    GrowthValue(Source(Width(book, Actuals), i, row), row, Budget, v, After(base, i), base);
  }

  lemma ProfitValue(history: nat, i: nat, v: Valuation, revenue: real, cost: real)
    requires v(Address(Budget, i + 2, 3)) == Num(revenue) && v(Address(Budget, i + 2, 4)) == Num(cost)
    ensures Eval(ForecastFormula(history, i, 5), Budget, v) == Num(revenue - cost)
  {
    NumberOfLetters(i + 2);
    hide Letters, Columns.Number, Source;
    var column := Letters(i + 2);
    assert Eval(Read(Ref(None, column, 3)), Budget, v) == Num(revenue);
    assert Eval(Read(Ref(None, column, 4)), Budget, v) == Num(cost);
  }

  /** The profit row of an accepted workbook is the difference of the two rows above it. */
  lemma AcceptedProfit(book: Book, v: Valuation, revenue: Base, cost: Base, i: nat)
    requires Accepted(book) && Recalculated(book, v)
    requires HasBase(book, v, 3, revenue) && HasBase(book, v, 4, cost) && i < Width(book, Budget)
    ensures v(Address(Budget, i + 2, 5)) == Num(After(revenue, i + 1) - After(cost, i + 1))
  {
    hide After, Accepted, Recalculated, HasBase, Width, ForecastFormula, Eval;
    ForecastCell(book, v, 5, i);
    AcceptedCompounds(book, v, 3, revenue, i);
    AcceptedCompounds(book, v, 4, cost, i);
    ProfitValue(Width(book, Actuals), i, v, After(revenue, i + 1), After(cost, i + 1));
  }

  // ---------------------------------------------------------------- emission preserves meaning

  function RevenueBase(inputs: Inputs): Base { Base(inputs.lastRevenue, inputs.revenueGrowth, inputs.revenueDelta) }

  function CostBase(inputs: Inputs): Base { Base(inputs.lastCost, inputs.costGrowth, inputs.costDelta) }

  lemma EmittedBases(inputs: Inputs, history: History, book: Book, v: Valuation)
    requires Emittable(inputs, history) && IsEmitted(inputs, history, book) && Recalculated(book, v)
    ensures HasBase(book, v, 3, RevenueBase(inputs)) && HasBase(book, v, 4, CostBase(inputs))
    ensures v(Address(Assumptions, 2, 4)) == Num(inputs.horizon as real)
  {
    EmittedWidths(inputs, history, book);
    hide IsBudget, Width;
    var n := |history.periods|;
    assert CellAt(book, Address(Actuals, n + 1, 2)) == Some(Number(inputs.lastRevenue));
    assert CellAt(book, Address(Actuals, n + 1, 3)) == Some(Number(inputs.lastCost));
    assert CellAt(book, Address(Assumptions, 2, 2)) == Some(Number(inputs.revenueGrowth));
    assert CellAt(book, Address(Assumptions, 2, 3)) == Some(Number(inputs.costGrowth));
    assert CellAt(book, Address(Assumptions, 2, 4)) == Some(Number(inputs.horizon as real));
    assert CellAt(book, Address(Assumptions, 2, 5)) == Some(Number(inputs.revenueDelta));
    assert CellAt(book, Address(Assumptions, 2, 6)) == Some(Number(inputs.costDelta));
  }

  /** In every forecast column a recalculated emission shows the unrounded forecast values. */
  lemma EmittedShowsForecast(inputs: Inputs, history: History, book: Book, v: Valuation, i: nat)
    requires Emittable(inputs, history) && IsEmitted(inputs, history, book) && Recalculated(book, v)
    requires i < inputs.horizon
    ensures v(Address(Budget, i + 2, 3)) == Num(RevenueAt(inputs, i + 1))
    ensures v(Address(Budget, i + 2, 4)) == Num(CostAt(inputs, i + 1))
    ensures v(Address(Budget, i + 2, 5)) == Num(RevenueAt(inputs, i + 1) - CostAt(inputs, i + 1))
  {
    EmittedIsAccepted(inputs, history, book);
    EmittedWidths(inputs, history, book);
    EmittedBases(inputs, history, book, v);
    hide Accepted, IsEmitted, HasBase, Recalculated, Compounded;
    assert After(RevenueBase(inputs), i + 1) == RevenueAt(inputs, i + 1);
    assert After(CostBase(inputs), i + 1) == CostAt(inputs, i + 1);
    AcceptedCompounds(book, v, 3, RevenueBase(inputs), i);
    AcceptedCompounds(book, v, 4, CostBase(inputs), i);
    AcceptedProfit(book, v, RevenueBase(inputs), CostBase(inputs), i);
  }

  lemma {:induction false} AllOccur(v: Valuation, sheet: Sheet, first: int, last: int, row: nat, text: string)
    requires last >= first - 1 && forall c | first <= c <= last :: v(Address(sheet, c, row)) == Str(text)
    ensures Occurrences(v, sheet, first, last, row, text) == last - first + 1
    decreases last - first + 1
  {
    if last >= first {
      AllOccur(v, sheet, first, last - 1, row, text);
    }
  }

  /** Both cells of the Checks sheet recalculate to true. */
  lemma EmittedChecksPass(inputs: Inputs, history: History, book: Book, v: Valuation)
    requires Emittable(inputs, history) && IsEmitted(inputs, history, book) && Recalculated(book, v)
    ensures v(Address(Checks, 2, 2)) == Truth(true)
    ensures v(Address(Checks, 2, 3)) == Truth(true)
  {
    var h := inputs.horizon;
    EmittedBases(inputs, history, book, v);
    assert CellAt(book, Address(Checks, 2, 2)) == Some(Formula(HorizonCheck(h)));
    assert CellAt(book, Address(Checks, 2, 3)) == Some(Formula(PeriodCheck(h)));
    assert v(Address(Checks, 2, 2)) == Eval(HorizonCheck(h), Checks, v);
    assert v(Address(Checks, 2, 3)) == Eval(PeriodCheck(h), Checks, v);
    CheckValues(h, v);
  }

  lemma CheckValues(h: nat, v: Valuation)
    requires h >= 1 && v(Address(Assumptions, 2, 4)) == Num(h as real)
    requires forall c | 2 <= c <= h + 1 :: v(Address(Budget, c, 2)) == Str("Forecast")
    ensures Eval(HorizonCheck(h), Checks, v) == Truth(true)
    ensures Eval(PeriodCheck(h), Checks, v) == Truth(true)
  {
    HorizonCheckHolds(h, v);
    PeriodCheckHolds(h, v);
  }

  lemma EvalEqual(l: Expr, r: Expr, home: Sheet, v: Valuation)
    ensures Eval(Eq(l, r), home, v) == Truth(Eval(l, home, v) == Eval(r, home, v))
  {
  }

  lemma EvalWidth(sheet: Sheet, first: string, last: string, home: Sheet, v: Valuation)
    ensures Eval(ColumnsOf(sheet, first, last), home, v) ==
            Num((Columns.Number(last) - Columns.Number(first) + 1) as real)
  {
    hide Columns.Number;
  }

  lemma EvalCount(sheet: Sheet, first: string, last: string, row: nat, text: string, home: Sheet, v: Valuation)
    ensures Eval(CountIf(sheet, first, last, row, text), home, v) ==
            Num(Occurrences(v, sheet, Columns.Number(first), Columns.Number(last), row, text) as real)
  {
    hide Columns.Number, Occurrences;
  }

  lemma EvalColumns(h: nat, v: Valuation)
    requires h >= 1
    ensures Eval(ColumnsOf(Budget, "B", Letters(h + 1)), Checks, v) == Num(h as real)
  {
    hide Eval, Letters, Columns.Number;
    NumberB();
    NumberOfLetters(h + 1);
    EvalWidth(Budget, "B", Letters(h + 1), Checks, v);
  }

  lemma EvalOccurrences(h: nat, v: Valuation)
    requires h >= 1 && forall c | 2 <= c <= h + 1 :: v(Address(Budget, c, 2)) == Str("Forecast")
    ensures Eval(CountIf(Budget, "B", Letters(h + 1), 2, "Forecast"), Checks, v) == Num(h as real)
  {
    hide Eval, Letters, Columns.Number, Occurrences;
    NumberB();
    NumberOfLetters(h + 1);
    AllOccur(v, Budget, 2, h + 1, 2, "Forecast");
    EvalCount(Budget, "B", Letters(h + 1), 2, "Forecast", Checks, v);
  }

  lemma HorizonCheckHolds(h: nat, v: Valuation)
    requires h >= 1 && v(Address(Assumptions, 2, 4)) == Num(h as real)
    ensures Eval(HorizonCheck(h), Checks, v) == Truth(true)
  {
    hide Eval, Letters, Columns.Number, AssumptionCell;
    EvalAssumption(4, Checks, v);
    EvalColumns(h, v);
    EvalEqual(ColumnsOf(Budget, "B", Letters(h + 1)), AssumptionCell(4), Checks, v);
  }

  lemma PeriodCheckHolds(h: nat, v: Valuation)
    requires h >= 1 && v(Address(Assumptions, 2, 4)) == Num(h as real)
    requires forall c | 2 <= c <= h + 1 :: v(Address(Budget, c, 2)) == Str("Forecast")
    ensures Eval(PeriodCheck(h), Checks, v) == Truth(true)
  {
    hide Eval, Letters, Columns.Number, AssumptionCell;
    EvalAssumption(4, Checks, v);
    EvalOccurrences(h, v);
    EvalEqual(CountIf(Budget, "B", Letters(h + 1), 2, "Forecast"), AssumptionCell(4), Checks, v);
  }

  // ---------------------------------------------------------------- a recalculation exists

  /** The valuation that puts the reference forecast in the formula cells. */
  ghost function ForecastValuation(inputs: Inputs, book: Book): Valuation
  {
    (a: Address) =>
      match CellAt(book, a)
      case None => Empty
      case Some(Number(n)) => Num(n)
      case Some(Text(s)) => Str(s)
      case Some(Formula(_)) =>
        if a.sheet == Checks then Truth(true)
        else if a.column < 2 then Bad
        else if a.row == 3 then Num(RevenueAt(inputs, a.column - 1))
        else if a.row == 4 then Num(CostAt(inputs, a.column - 1))
        else Num(RevenueAt(inputs, a.column - 1) - CostAt(inputs, a.column - 1))
  }

  /** Where an emitted workbook has formulas. */
  lemma EmittedFormulas(inputs: Inputs, history: History, book: Book, a: Address)
    requires IsEmitted(inputs, history, book) && CellAt(book, a).Some? && CellAt(book, a).value.Formula?
    ensures (a.sheet == Budget && 3 <= a.row <= 5 && 2 <= a.column <= inputs.horizon + 1
             && CellAt(book, a).value.e == ForecastFormula(|history.periods|, a.column - 2, a.row))
            || (a == Address(Checks, 2, 2) && CellAt(book, a).value.e == HorizonCheck(inputs.horizon))
            || (a == Address(Checks, 2, 3) && CellAt(book, a).value.e == PeriodCheck(inputs.horizon))
  {
    hide ForecastFormula, HorizonCheck, PeriodCheck;
    var grid: Grid := book[a.sheet];
    if a.sheet == Budget {
      assert grid[a.row - 1][a.column - 1].Formula?;
    }
  }

  function BaseOf(inputs: Inputs, row: nat): Base
  {
    if row == 3 then RevenueBase(inputs) else CostBase(inputs)
  }

  lemma EmittedHoldings(inputs: Inputs, history: History, book: Book, row: nat)
    requires Emittable(inputs, history) && IsEmitted(inputs, history, book) && (row == 3 || row == 4)
    ensures var base := BaseOf(inputs, row);
            && CellAt(book, Address(Actuals, |history.periods| + 1, row - 1)) == Some(Number(base.value))
            && CellAt(book, Address(Assumptions, 2, RATE_ROWS[row])) == Some(Number(base.rate))
            && CellAt(book, Address(Assumptions, 2, DELTA_ROWS[row])) == Some(Number(base.delta))
  {
    hide IsBudget;
  }

  /** The reference valuation at a forecast formula of row 3, 4 or 5. */
  lemma ValuationOfFormula(inputs: Inputs, history: History, book: Book, i: nat, row: nat)
    requires IsEmitted(inputs, history, book) && i < inputs.horizon && 3 <= row <= 5
    ensures ForecastValuation(inputs, book)(Address(Budget, i + 2, row)) ==
            Num(if row == 5 then After(BaseOf(inputs, 3), i + 1) - After(BaseOf(inputs, 4), i + 1)
                else After(BaseOf(inputs, row), i + 1))
  {
    EmittedColumn(inputs, history, book, i);
    assert Holds(book, Budget, i + 2, row, Formula(ForecastFormula(|history.periods|, i, row)));
    hide IsEmitted, ForecastFormula, After, RevenueAt, CostAt;
  }

  lemma ValuationAtGrowth(inputs: Inputs, history: History, book: Book, i: nat, row: nat)
    requires Emittable(inputs, history) && IsEmitted(inputs, history, book) && i < inputs.horizon
    requires row == 3 || row == 4
    ensures var v := ForecastValuation(inputs, book);
            v(Address(Budget, i + 2, row)) == Eval(ForecastFormula(|history.periods|, i, row), Budget, v)
  {
    var v, n, base := ForecastValuation(inputs, book), |history.periods|, BaseOf(inputs, row);
    ValuationOfFormula(inputs, history, book, i, row);
    if i > 0 { ValuationOfFormula(inputs, history, book, i - 1, row); }
    EmittedHoldings(inputs, history, book, row);
    hide IsEmitted, Emittable, After, Grow, Source, Eval, CellAt, BaseOf, RevenueAt, CostAt, Resolve,
         ForecastValuation, Growth;
    assert ForecastFormula(n, i, row) == Growth(Source(n, i, row), RATE_ROWS[row], DELTA_ROWS[row]);
    hide ForecastFormula;
    SourceAddress(n, i, row);
    AfterGrows(base, i);
    assert v(Resolve(Source(n, i, row), Budget)) == Num(After(base, i));
    GrowthValue(Source(n, i, row), row, Budget, v, After(base, i), base);
  }

  lemma ValuationAtProfit(inputs: Inputs, history: History, book: Book, i: nat)
    requires IsEmitted(inputs, history, book) && i < inputs.horizon
    ensures var v := ForecastValuation(inputs, book);
            v(Address(Budget, i + 2, 5)) == Eval(ForecastFormula(|history.periods|, i, 5), Budget, v)
  {
    ValuationOfFormula(inputs, history, book, i, 3);
    ValuationOfFormula(inputs, history, book, i, 4);
    ValuationOfFormula(inputs, history, book, i, 5);
    hide IsEmitted, After, BaseOf, ForecastValuation, Eval, ForecastFormula;
    ProfitValue(
      |history.periods|, i, ForecastValuation(inputs, book), After(BaseOf(inputs, 3), i + 1),
      After(BaseOf(inputs, 4), i + 1));
  }

  /** Every emitted workbook has a recalculation, and it puts the reference forecast in the forecast sheet. */
  lemma EmittedCanBeRecalculated(inputs: Inputs, history: History, book: Book)
    requires Emittable(inputs, history) && IsEmitted(inputs, history, book)
    ensures Recalculated(book, ForecastValuation(inputs, book))
  {
    var v := ForecastValuation(inputs, book);
    forall a: Address ensures v(a) == CellValue(book, a, v) {
      var cell := CellAt(book, a);
      if cell.Some? && cell.value.Formula? {
        EmittedFormulas(inputs, history, book, a);
        if a.sheet == Budget {
          if a.row == 5 {
            ValuationAtProfit(inputs, history, book, a.column - 2);
          } else {
            ValuationAtGrowth(inputs, history, book, a.column - 2, a.row);
          }
        } else {
          EmittedChecksValue(inputs, history, book);
        }
      }
    }
  }

  lemma EmittedChecksValue(inputs: Inputs, history: History, book: Book)
    requires Emittable(inputs, history) && IsEmitted(inputs, history, book)
    ensures var v := ForecastValuation(inputs, book);
            && Eval(HorizonCheck(inputs.horizon), Checks, v) == Truth(true)
            && Eval(PeriodCheck(inputs.horizon), Checks, v) == Truth(true)
  {
    var v := ForecastValuation(inputs, book);
    assert CellAt(book, Address(Assumptions, 2, 4)) == Some(Number(inputs.horizon as real));
    forall c | 2 <= c <= inputs.horizon + 1 ensures v(Address(Budget, c, 2)) == Str("Forecast") {
      EmittedColumn(inputs, history, book, c - 2);
      assert Holds(book, Budget, c, 2, Text("Forecast"));
    }
    hide IsEmitted, Eval;
    CheckValues(inputs.horizon, v);
  }

  // ---------------------------------------------------------------- from the fields of an input

  /** A history read from an input: its periods, and its two series with one number for each. */
  ghost predicate ReadFrom(m: ModelInput, history: History)
  {
    && history.periods == m.periods
    && m.revenue.Some? && m.costs.Some?
    && |history.revenue| == |m.revenue.value| == |m.periods|
    && |history.costs| == |m.costs.value| == |m.periods|
    && forall k | 0 <= k < |m.periods| ::
         Reads(m.revenue.value[k], history.revenue[k]) && Reads(m.costs.value[k], history.costs[k])
  }

  /** What a usable input is read as can be emitted. */
  lemma ReadIsEmittable(m: ModelInput, history: History)
    requires Usable(m) && ReadFrom(m, history)
    ensures ForecastInputs(m).Ok? && Emittable(ForecastInputs(m).value, history)
  {
    InputsAreRead(m);
    hide ForecastInputs;
  }

  /** The recalculated workbook of an input shows what the direct calculation publishes, before rounding. */
  lemma ReadShowsForecast(
    m: ModelInput, history: History, book: Book, v: Valuation, rows: seq<ForecastRow>, n: nat)
    requires Usable(m) && ReadFrom(m, history) && ForecastInputs(m).Ok?
    requires IsEmitted(ForecastInputs(m).value, history, book) && Recalculated(book, v)
    requires AreRows(ForecastInputs(m).value, rows) && n < |rows|
    ensures Publishes(m, rows)
    ensures exists revenue, costs ::
              && v(Address(Budget, n + 2, 3)) == Num(revenue) && rows[n].revenue == Cents(revenue)
              && v(Address(Budget, n + 2, 4)) == Num(costs) && rows[n].costs == Cents(costs)
              && v(Address(Budget, n + 2, 5)) == Num(revenue - costs) && rows[n].profit == Cents(revenue - costs)
  {
    RowsPublish(m, rows);
    ReadIsEmittable(m, history);
    InputsAreRead(m);
    hide ForecastInputs, Usable, Publishes, ReadFrom, IsEmitted, Recalculated, Emittable, Cents;
    var inputs := ForecastInputs(m).value;
    assert IsRow(inputs, n, rows[n]);
    EmittedShowsForecast(inputs, history, book, v, n);
  }
}
