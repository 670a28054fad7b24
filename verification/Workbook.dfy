/** The emitted budget workbook, its validator and its recalculation (`native_xlsx/provider.py`). */
module Workbook {
  import opened Results
  import opened Columns
  import opened Forecast

  datatype Sheet = Actuals | Assumptions | Budget | Checks | Other(name: string)

  /** A cell reference as written: a sheet name unless it is the formula's own, letters and a row. */
  datatype Ref = Ref(sheet: Option<Sheet>, column: string, row: nat)

  datatype Expr =
    | Const(n: real)
    | Read(ref: Ref)
    | Add(l: Expr, r: Expr)
    | Sub(l: Expr, r: Expr)
    | Mul(l: Expr, r: Expr)
    | Eq(l: Expr, r: Expr)
    | ColumnsOf(sheet: Sheet, first: string, last: string)
    | CountIf(sheet: Sheet, first: string, last: string, row: nat, text: string)

  datatype Cell = Number(n: real) | Text(s: string) | Formula(e: Expr)

  /** The rows of a sheet, as appended; columns and rows count from 1. */
  type Grid = seq<seq<Cell>>

  type Book = map<Sheet, Grid>

  datatype Address = Address(sheet: Sheet, column: int, row: int)

  function CellAt(book: Book, a: Address): Option<Cell>
  {
    if a.sheet in book && 1 <= a.row <= |book[a.sheet]| && 1 <= a.column <= |book[a.sheet][a.row - 1]| then
      Some(book[a.sheet][a.row - 1][a.column - 1])
    else None
  }

  // ---------------------------------------------------------------- recalculation

  datatype Value = Num(n: real) | Str(s: string) | Truth(b: bool) | Empty | Bad

  type Valuation = Address -> Value

  function Resolve(ref: Ref, home: Sheet): Address
  {
    Address(if ref.sheet.Some? then ref.sheet.value else home, Columns.Number(ref.column), ref.row)
  }

  ghost function Occurrences(v: Valuation, sheet: Sheet, first: int, last: int, row: nat, text: string): nat
    decreases last - first + 1
  {
    if last < first then 0
    else Occurrences(v, sheet, first, last - 1, row, text) + if v(Address(sheet, last, row)) == Str(text) then 1 else 0
  }

  function Times(x: real, y: real): real
  {
    x * y
  }

  function Arithmetic(op: (real, real) -> real, l: Value, r: Value): Value
  {
    if l.Num? && r.Num? then Num(op(l.n, r.n)) else Bad
  }

  ghost function Eval(e: Expr, home: Sheet, v: Valuation): Value
  {
    match e
    case Const(n) => Num(n)
    case Read(ref) => v(Resolve(ref, home))
    case Add(l, r) => Arithmetic((x, y) => x + y, Eval(l, home, v), Eval(r, home, v))
    case Sub(l, r) => Arithmetic((x, y) => x - y, Eval(l, home, v), Eval(r, home, v))
    case Mul(l, r) => Arithmetic(Times, Eval(l, home, v), Eval(r, home, v))
    case Eq(l, r) => Truth(Eval(l, home, v) == Eval(r, home, v))
    case ColumnsOf(_, first, last) => Num((Columns.Number(last) - Columns.Number(first) + 1) as real)
    case CountIf(sheet, first, last, row, text) =>
      Num(Occurrences(v, sheet, Columns.Number(first), Columns.Number(last), row, text) as real)
  }

  ghost function CellValue(book: Book, a: Address, v: Valuation): Value
  {
    match CellAt(book, a)
    case None => Empty
    case Some(Number(n)) => Num(n)
    case Some(Text(s)) => Str(s)
    case Some(Formula(e)) => Eval(e, a.sheet, v)
  }

  /** A recalculated workbook: every cell holds what its content gives in terms of the other cells. */
  ghost predicate Recalculated(book: Book, v: Valuation)
  {
    forall a: Address :: v(a) == CellValue(book, a, v)
  }

  // ---------------------------------------------------------------- formulas

  function AssumptionCell(row: nat): Expr
  {
    Read(Ref(Some(Assumptions), "B", row))
  }

  /** `source*(1+Assumptions!$B$rate+Assumptions!$B$delta)`. */
  function Growth(source: Ref, rate: nat, delta: nat): Expr
  {
    Mul(Read(source), Add(Add(Const(1.0), AssumptionCell(rate)), AssumptionCell(delta)))
  }

  const RATE_ROWS := map[3 := 2, 4 := 3]
  const DELTA_ROWS := map[3 := 5, 4 := 6]

  /** The cell a forecast cell grows from: the last actual, then the column to its left. */
  function Source(history: nat, index: nat, row: nat): Ref
    requires row >= 1
  {
    if index == 0 then Ref(Some(Actuals), Letters(history + 1), row - 1) else Ref(None, Letters(index + 1), row)
  }

  /** The formula of forecast column `index` in row 3, 4 or 5. */
  function ForecastFormula(history: nat, index: nat, row: nat): Expr
    requires 3 <= row <= 5
  {
    if row == 5 then Sub(Read(Ref(None, Letters(index + 2), 3)), Read(Ref(None, Letters(index + 2), 4)))
    else Growth(Source(history, index, row), RATE_ROWS[row], DELTA_ROWS[row])
  }

  function HorizonCheck(count: nat): Expr
  {
    Eq(ColumnsOf(Budget, "B", Letters(count + 1)), AssumptionCell(4))
  }

  function PeriodCheck(count: nat): Expr
  {
    Eq(CountIf(Budget, "B", Letters(count + 1), 2, "Forecast"), AssumptionCell(4))
  }

  // ---------------------------------------------------------------- emission

  datatype History = History(periods: seq<string>, revenue: seq<real>, costs: seq<real>)

  function Texts(s: seq<string>): seq<Cell>
  {
    seq(|s|, i requires 0 <= i < |s| => Text(s[i]))
  }

  function Numbers(s: seq<real>): seq<Cell>
  {
    seq(|s|, i requires 0 <= i < |s| => Number(s[i]))
  }

  /** A row of the forecast sheet: its heading and the formula of each column. */
  ghost predicate IsFormulaRow(cells: seq<Cell>, heading: string, horizon: nat, history: nat, row: nat)
    requires 3 <= row <= 5
  {
    && |cells| == horizon + 1
    && cells[0] == Text(heading)
    && forall i | 0 <= i < horizon :: cells[i + 1] == Formula(ForecastFormula(history, i, row))
  }

  ghost predicate IsBudget(inputs: Inputs, history: nat, grid: Grid)
  {
    && |grid| == 5
    && grid[0] == [Text("Metric")] + Texts(inputs.periods)
    && grid[1] == [Text("Period type")] + seq(inputs.horizon, _ => Text("Forecast"))
    && IsFormulaRow(grid[2], "Revenue", inputs.horizon, history, 3)
    && IsFormulaRow(grid[3], "Operating costs", inputs.horizon, history, 4)
    && IsFormulaRow(grid[4], "Operating profit", inputs.horizon, history, 5)
  }

  /** What every emitted workbook holds, sheet by sheet and row by row. */
  ghost predicate IsEmitted(inputs: Inputs, history: History, book: Book)
  {
    && |inputs.periods| == inputs.horizon
    && book.Keys == {Actuals, Assumptions, Budget, Checks}
    && book[Actuals] == [[Text("Metric")] + Texts(history.periods),
                         [Text("Revenue")] + Numbers(history.revenue),
                         [Text("Operating costs")] + Numbers(history.costs)]
    && book[Assumptions] == [[Text("Assumption"), Text("Value")],
                             [Text("Revenue growth rate"), Number(inputs.revenueGrowth)],
                             [Text("Operating cost growth rate"), Number(inputs.costGrowth)],
                             [Text("Forecast horizon"), Number(inputs.horizon as real)],
                             [Text("Scenario revenue delta"), Number(inputs.revenueDelta)],
                             [Text("Scenario operating cost delta"), Number(inputs.costDelta)],
                             [Text("Scenario"), Text(inputs.scenario)]]
    && IsBudget(inputs, |history.periods|, book[Budget])
    && book[Checks] == [[Text("Check"), Text("Status")],
                        [Text("Forecast horizon"), Formula(HorizonCheck(inputs.horizon))],
                        [Text("All periods forecast"), Formula(PeriodCheck(inputs.horizon))]]
  }

  /** What emission is given: a positive horizon with its periods, and a non-empty history. */
  ghost predicate Emittable(inputs: Inputs, history: History)
  {
    && inputs.horizon >= 1 && |inputs.periods| == inputs.horizon
    && |history.periods| == |history.revenue| == |history.costs| >= 1
    && inputs.lastRevenue == history.revenue[|history.revenue| - 1]
    && inputs.lastCost == history.costs[|history.costs| - 1]
  }

  /** The source references of a row: the last actual, then each column but the last. */
  method Sources(history: nat, columns: seq<string>, row: nat) returns (sources: seq<Ref>)
    requires history >= 1 && columns != [] && columns == Labels(|columns|) && row >= 1
    ensures |sources| == |columns|
    ensures forall i | 0 <= i < |columns| :: sources[i] == Source(history, i, row)
  {
    var labels := ColumnLabels(history);
    sources := [Ref(Some(Actuals), labels[|labels| - 1], row - 1)];
    for i := 0 to |columns| - 1
      invariant |sources| == i + 1
      invariant forall j | 0 <= j < |sources| :: sources[j] == Source(history, j, row)
    {
      sources := sources + [Ref(None, columns[i], row)];
    }
  }

  method EmitBudget(inputs: Inputs, history: nat, columns: seq<string>) returns (grid: Grid)
    requires inputs.horizon >= 1 && |inputs.periods| == inputs.horizon && history >= 1
    requires columns == Labels(inputs.horizon)
    ensures IsBudget(inputs, history, grid)
  {
    hide Letters;
    var revenueSources := Sources(history, columns, 3);
    var costSources := Sources(history, columns, 4);
    grid := [[Text("Metric")] + Texts(inputs.periods)];
    grid := grid + [[Text("Period type")] + seq(inputs.horizon, _ => Text("Forecast"))];
    var revenue := seq(|columns|, i requires 0 <= i < |columns| => Formula(Growth(revenueSources[i], 2, 5)));
    grid := grid + [[Text("Revenue")] + revenue];
    var costs := seq(|columns|, i requires 0 <= i < |columns| => Formula(Growth(costSources[i], 3, 6)));
    grid := grid + [[Text("Operating costs")] + costs];
    var profit := seq(|columns|, i requires 0 <= i < |columns| =>
                        Formula(Sub(Read(Ref(None, columns[i], 3)), Read(Ref(None, columns[i], 4)))));
    grid := grid + [[Text("Operating profit")] + profit];
  }

  method EmitWorkbook(inputs: Inputs, history: History) returns (book: Book)
    requires Emittable(inputs, history)
    ensures IsEmitted(inputs, history, book)
  {
    var actuals := [[Text("Metric")] + Texts(history.periods)];
    actuals := actuals + [[Text("Revenue")] + Numbers(history.revenue)];
    actuals := actuals + [[Text("Operating costs")] + Numbers(history.costs)];
    var assumptions := [[Text("Assumption"), Text("Value")]];
    assumptions := assumptions + [[Text("Revenue growth rate"), Number(inputs.revenueGrowth)]];
    assumptions := assumptions + [[Text("Operating cost growth rate"), Number(inputs.costGrowth)]];
    assumptions := assumptions + [[Text("Forecast horizon"), Number(inputs.horizon as real)]];
    assumptions := assumptions + [[Text("Scenario revenue delta"), Number(inputs.revenueDelta)]];
    assumptions := assumptions + [[Text("Scenario operating cost delta"), Number(inputs.costDelta)]];
    assumptions := assumptions + [[Text("Scenario"), Text(inputs.scenario)]];
    var columns := ColumnLabels(inputs.horizon);
    var last := columns[|columns| - 1];
    var forecast := EmitBudget(inputs, |history.periods|, columns);
    var checks := [[Text("Check"), Text("Status")]];
    checks := checks + [[Text("Forecast horizon"), Formula(Eq(ColumnsOf(Budget, "B", last), AssumptionCell(4)))]];
    checks := checks + [[Text("All periods forecast"),
      Formula(Eq(CountIf(Budget, "B", last, 2, "Forecast"), AssumptionCell(4)))]];
    book := map[Actuals := actuals, Assumptions := assumptions, Budget := forecast, Checks := checks];
  }

  // ---------------------------------------------------------------- the validator

  datatype WorkbookIssue =
    | MissingSheets(sheets: set<Sheet>)
    | NoFormulas
    | SeparationMissing
    | FormulaMismatch(column: string, row: nat)
    | CheckMismatch

  datatype ValidatorError = NoColumns

  const REQUIRED := {Actuals, Assumptions, Budget, Checks}

  function MaxLength(grid: Grid): (n: nat)
    ensures n >= 1
    ensures forall i | 0 <= i < |grid| :: |grid[i]| <= n
    ensures n == 1 || exists i :: 0 <= i < |grid| && |grid[i]| == n
  {
    if grid == [] then 1
    else
      var rest, last := MaxLength(grid[..|grid| - 1]), |grid[|grid| - 1]|;
      assert grid == grid[..|grid| - 1] + [grid[|grid| - 1]];
      if last > rest then last else rest
  }

  /** `cell.value == formula`. */
  predicate Holds(book: Book, sheet: Sheet, column: int, row: int, content: Cell)
  {
    CellAt(book, Address(sheet, column, row)) == Some(content)
  }

  predicate HasFormula(grid: Grid)
  {
    exists i | 0 <= i < |grid| :: exists j | 0 <= j < |grid[i]| :: grid[i][j].Formula?
  }

  /** The number of forecast and of historical columns, as the validator measures them. */
  function Width(book: Book, sheet: Sheet): nat
  {
    if sheet in book then MaxLength(book[sheet]) - 1 else 0
  }

  predicate Separated(book: Book, index: nat)
  {
    Holds(book, Budget, index + 2, 2, Text("Forecast"))
  }

  /** The formulas of a forecast column below the given row are the expected ones. */
  ghost predicate FormulasHold(book: Book, history: nat, index: nat, end: nat)
    requires end <= 6
  {
    forall row | 3 <= row < end :: Holds(book, Budget, index + 2, row, Formula(ForecastFormula(history, index, row)))
  }

  ghost predicate ColumnAccepted(book: Book, history: nat, index: nat)
  {
    Separated(book, index) && FormulasHold(book, history, index, 6)
  }

  /** What a passed validation means. */
  ghost predicate Accepted(book: Book)
  {
    && REQUIRED <= book.Keys
    && Width(book, Budget) >= 1 && Width(book, Actuals) >= 1
    && (forall i | 0 <= i < Width(book, Budget) :: ColumnAccepted(book, Width(book, Actuals), i))
    && Holds(book, Checks, 2, 2, Formula(HorizonCheck(Width(book, Budget))))
  }

  /** The mismatches of one column above row `end`. */
  ghost function ColumnIssues(book: Book, history: nat, index: nat, end: nat): set<WorkbookIssue>
    requires end <= 6
  {
    set row: nat | 3 <= row < end && !Holds(book, Budget, index + 2, row, Formula(ForecastFormula(history, index, row)))
      :: FormulaMismatch(Letters(index + 2), row)
  }

  ghost function AllColumnIssues(book: Book, history: nat, count: nat): set<WorkbookIssue>
  {
    set i: nat, x | i < count && x in ColumnIssues(book, history, i, 6) :: x
  }

  /** The validator looks for the last label of an empty list of columns. */
  predicate Raises(book: Book)
  {
    && REQUIRED <= book.Keys
    && (Width(book, Budget) == 0 || Width(book, Actuals) == 0)
  }

  /** Everything the validator reports when it does not raise. */
  ghost function BookIssues(book: Book): set<WorkbookIssue>
  {
    var missing := REQUIRED - book.Keys;
    var count := Width(book, Budget);
    (if missing != {} then {MissingSheets(missing)} else {})
    + (if exists sheet | sheet in book :: HasFormula(book[sheet]) then {} else {NoFormulas})
    + if missing != {} then {}
      else
        (if exists i | 0 <= i < count :: !Separated(book, i) then {SeparationMissing} else {})
        + AllColumnIssues(book, Width(book, Actuals), count)
        + if Holds(book, Checks, 2, 2, Formula(HorizonCheck(count))) then {} else {CheckMismatch}
  }

  /** The three formula comparisons of one column. */
  method CheckColumn(book: Book, history: nat, historicalLast: string, columns: seq<string>, index: nat)
    returns (issues: set<WorkbookIssue>)
    requires index < |columns| && columns == Labels(|columns|) && historicalLast == Letters(history + 1)
    ensures issues == ColumnIssues(book, history, index, 6)
  {
    issues := {};
    var revenue := if index == 0 then Ref(Some(Actuals), historicalLast, 2) else Ref(None, columns[index - 1], 3);
    var cost := if index == 0 then Ref(Some(Actuals), historicalLast, 3) else Ref(None, columns[index - 1], 4);
    var column := columns[index];
    var expected := [
      Growth(revenue, 2, 5), Growth(cost, 3, 6), Sub(Read(Ref(None, column, 3)), Read(Ref(None, column, 4)))];
    for row := 3 to 6
      invariant issues == ColumnIssues(book, history, index, row)
    {
      assert expected[row - 3] == ForecastFormula(history, index, row);
      ColumnIssuesNext(book, history, index, row);
      if !Holds(book, Budget, index + 2, row, Formula(expected[row - 3])) {
        issues := issues + {FormulaMismatch(column, row)};
      }
    }
  }

  lemma ColumnIssuesNext(book: Book, history: nat, index: nat, row: nat)
    requires 3 <= row < 6
    ensures ColumnIssues(book, history, index, row + 1) ==
            ColumnIssues(book, history, index, row)
            + if Holds(book, Budget, index + 2, row, Formula(ForecastFormula(history, index, row))) then {}
              else {FormulaMismatch(Letters(index + 2), row)}
  {
    hide Holds, Letters, ForecastFormula;
  }

  lemma NoColumnIssuesIff(book: Book, history: nat, index: nat)
    ensures ColumnIssues(book, history, index, 6) == {} <==> FormulasHold(book, history, index, 6)
  {
    hide Holds, Letters, ForecastFormula;
    forall row: nat | 3 <= row < 6
      && !Holds(book, Budget, index + 2, row, Formula(ForecastFormula(history, index, row)))
      ensures FormulaMismatch(Letters(index + 2), row) in ColumnIssues(book, history, index, 6)
    {
    }
  }

  lemma AcceptedHasFormula(book: Book)
    requires Budget in book && exists history :: FormulasHold(book, history, 0, 6)
    ensures HasFormula(book[Budget])
  {
    var history :| FormulasHold(book, history, 0, 6);
    assert Holds(book, Budget, 2, 3, Formula(ForecastFormula(history, 0, 3)));
    assert book[Budget][2][1].Formula?;
  }

  /** The loop over the forecast columns. */
  method CheckColumns(book: Book, history: nat, columns: seq<string>) returns (issues: set<WorkbookIssue>)
    requires columns == Labels(|columns|) && history >= 1
    ensures issues == AllColumnIssues(book, history, |columns|)
  {
    hide ColumnIssues;
    issues := {};
    var actualColumns := ColumnLabels(history);
    var historicalLast := actualColumns[|actualColumns| - 1];
    for index := 0 to |columns|
      invariant issues == AllColumnIssues(book, history, index)
    {
      var found := CheckColumn(book, history, historicalLast, columns, index);
      issues := issues + found;
    }
  }

  lemma NoIssuesInColumnsIff(book: Book, history: nat, count: nat)
    ensures AllColumnIssues(book, history, count) == {} <==>
            forall i | 0 <= i < count :: FormulasHold(book, history, i, 6)
  {
    hide FormulasHold, ColumnIssues;
    forall i: nat ensures ColumnIssues(book, history, i, 6) == {} <==> FormulasHold(book, history, i, 6) {
      NoColumnIssuesIff(book, history, i);
    }
    assert forall i: nat | i < count :: ColumnIssues(book, history, i, 6) <= AllColumnIssues(book, history, count);
  }

  lemma AllColumnsAccepted(book: Book, history: nat, count: nat)
    ensures (forall i | 0 <= i < count :: ColumnAccepted(book, history, i)) <==>
            && (forall i | 0 <= i < count :: Separated(book, i))
            && (forall i | 0 <= i < count :: FormulasHold(book, history, i, 6))
  {
    hide FormulasHold, Separated;
    if forall i | 0 <= i < count :: ColumnAccepted(book, history, i) {
      forall i | 0 <= i < count ensures Separated(book, i) && FormulasHold(book, history, i, 6) {
        assert ColumnAccepted(book, history, i);
      }
    }
  }

  lemma NothingMissingIff(book: Book)
    ensures REQUIRED - book.Keys == {} <==> REQUIRED <= book.Keys
  {
    forall sheet | sheet in REQUIRED && sheet !in book ensures sheet in REQUIRED - book.Keys {}
  }

  /** A workbook passes exactly when it has the sheets, the columns and the formulas it should. */
  lemma PassesIff(book: Book)
    ensures !Raises(book) && BookIssues(book) == {} <==> Accepted(book)
  {
    hide FormulasHold, HasFormula, Width, Separated, Holds, AllColumnIssues, ColumnAccepted;
    var history, count := Width(book, Actuals), Width(book, Budget);
    NothingMissingIff(book);
    NoIssuesInColumnsIff(book, history, count);
    AllColumnsAccepted(book, history, count);
    if Budget in book && count >= 1 && AllColumnIssues(book, history, count) == {} {
      assert FormulasHold(book, history, 0, 6);
      AcceptedHasFormula(book);
    }
  }

  /** Reopens a workbook; it raises when the forecast or history sheet has a single column. */
  method ValidateWorkbook(book: Book) returns (r: Result<set<WorkbookIssue>, ValidatorError>)
    ensures r == if Raises(book) then Err(NoColumns) else Ok(BookIssues(book))
  {
    hide HasFormula, Width, Separated, Holds, AllColumnIssues;
    var issues: set<WorkbookIssue> := {};
    var missing := REQUIRED - book.Keys;
    NothingMissingIff(book);
    if missing != {} {
      issues := issues + {MissingSheets(missing)};
    }
    if !exists sheet | sheet in book :: HasFormula(book[sheet]) {
      issues := issues + {NoFormulas};
    }
    if missing != {} {
      assert issues == BookIssues(book);
      return Ok(issues);
    }
    var count := Width(book, Budget);
    if count < 1 || exists i | 0 <= i < count :: !Separated(book, i) {
      issues := issues + {SeparationMissing};
    }
    var history := Width(book, Actuals);
    if count == 0 || history == 0 {
      return Err(NoColumns);
    }
    var columns := ColumnLabels(count);
    var found := CheckColumns(book, history, columns);
    issues := issues + found;
    assert columns[|columns| - 1] == Letters(count + 1);
    if !Holds(book, Checks, 2, 2, Formula(Eq(ColumnsOf(Budget, "B", columns[|columns| - 1]), AssumptionCell(4)))) {
      issues := issues + {CheckMismatch};
    }
    assert issues == BookIssues(book);
    r := Ok(issues);
  }

  // ---------------------------------------------------------------- addresses

  /** Rows and columns of a sheet are counted from one. */
  lemma CellAtIff(book: Book, a: Address, cell: Cell)
    ensures CellAt(book, a) == Some(cell) <==>
            && a.sheet in book
            && exists r: nat, c: nat ::
                 && a.row == r + 1 && a.column == c + 1
                 && r < |book[a.sheet]| && c < |book[a.sheet][r]| && book[a.sheet][r][c] == cell
  {
    if CellAt(book, a) == Some(cell) {
      var r: nat, c: nat := a.row - 1, a.column - 1;
      assert book[a.sheet][r][c] == cell;
    }
  }

  ghost function Matching(v: Valuation, sheet: Sheet, first: int, last: int, row: nat, text: string): set<int>
  {
    set c | first <= c <= last && v(Address(sheet, c, row)) == Str(text)
  }

  lemma MatchingNext(v: Valuation, sheet: Sheet, first: int, last: int, row: nat, text: string)
    requires first <= last
    ensures |Matching(v, sheet, first, last, row, text)| ==
            |Matching(v, sheet, first, last - 1, row, text)|
            + if v(Address(sheet, last, row)) == Str(text) then 1 else 0
  {
    var before := Matching(v, sheet, first, last - 1, row, text);
    assert last !in before;
    assert Matching(v, sheet, first, last, row, text) ==
           before + if v(Address(sheet, last, row)) == Str(text) then {last} else {};
  }

  /** `COUNTIF` counts the cells of a row that show a text. */
  lemma {:induction false} OccurrencesCount(v: Valuation, sheet: Sheet, first: int, last: int, row: nat, text: string)
    ensures Occurrences(v, sheet, first, last, row, text) == |Matching(v, sheet, first, last, row, text)|
    decreases last - first + 1
  {
    if last < first {
      assert Matching(v, sheet, first, last, row, text) == {};
    } else {
      OccurrencesCount(v, sheet, first, last - 1, row, text);
      MatchingNext(v, sheet, first, last, row, text);
      hide Matching;
    }
  }
}
