/** The two budget forecast calculators (`native_xlsx/provider.py`, `python_forecast/plugin.py`). */
module Forecast {
  import opened Results
  import opened Rounding

  /**
   * An assumption or statement value as it is read. `JDecimal` stands for a float or a numeric
   * string, which both become decimals; `JOther` for anything that raises.
   */
  datatype Json = JInt(i: int) | JDecimal(r: real) | JBool(b: bool) | JOther

  function DecimalOf(v: Json): Option<real>
  {
    match v
    case JInt(i) => Some(i as real)
    case JDecimal(r) => Some(r)
    case _ => None
  }

  datatype Adjustment = Adjustment(revenueDelta: Json, costDelta: Json)

  /** A validated model input: `None` stands for a field that is missing or not of its kind. */
  datatype ModelInput = ModelInput(
    periods: seq<string>, horizon: Json, scenario: string,
    adjustments: Option<map<string, Option<Adjustment>>>,
    revenueGrowth: Json, costGrowth: Json,
    revenue: Option<seq<Json>>, costs: Option<seq<Json>>)

  datatype Inputs = Inputs(
    horizon: nat, scenario: string, periods: seq<string>,
    revenueGrowth: real, costGrowth: real, revenueDelta: real, costDelta: real,
    lastRevenue: real, lastCost: real)

  datatype InputError = BadHorizon | BadScenario | BadAdjustments | BadHistory | BadNumber

  const SCENARIOS := {"base", "upside", "downside"}

  // ---------------------------------------------------------------- periods

  function Digits(n: nat): string
  {
    (if n < 10 then "" else Digits(n / 10)) + [(48 + n % 10) as char]
  }

  predicate AllDigits(s: string)
  {
    forall c | c in s :: '0' <= c <= '9'
  }

  function Parse(s: string): nat
    requires AllDigits(s)
  {
    if s == "" then 0
    else
      var front, last := s[..|s| - 1], s[|s| - 1];
      assert forall c | c in front :: c in s;
      assert last in s;
      Parse(front) * 10 + (last as int - 48)
  }

  predicate IsYear(s: string)
  {
    |s| == 4 && AllDigits(s)
  }

  function PeriodLabel(last: string, offset: nat): string
  {
    if IsYear(last) then Digits(Parse(last) + offset) else "Forecast " + Digits(offset)
  }

  /** `_forecast_periods`. */
  function ForecastPeriods(last: string, count: nat): (r: seq<string>)
    ensures |r| == count
    ensures forall i | 0 <= i < count :: r[i] == PeriodLabel(last, i + 1)
  {
    seq(count, i requires 0 <= i => PeriodLabel(last, i + 1))
  }

  lemma {:induction false} ParseDigits(n: nat)
    ensures AllDigits(Digits(n)) && Parse(Digits(n)) == n
  {
    if n >= 10 {
      ParseDigits(n / 10);
    } else {
      assert Digits(n) == "" + [(48 + n) as char];
    }
  }

  lemma DigitsInjective(m: nat, n: nat)
    requires Digits(m) == Digits(n)
    ensures m == n
  {
    ParseDigits(m);
    ParseDigits(n);
  }

  lemma {:induction false} DigitsLead(n: nat)
    ensures Digits(n) != "" && (n > 0 ==> Digits(n)[0] != '0')
  {
    if n >= 10 {
      DigitsLead(n / 10);
      assert Digits(n) == Digits(n / 10) + [(48 + n % 10) as char];
    } else {
      assert Digits(n) == "" + [(48 + n) as char];
    }
  }

  /** `s` writes `n` in decimal without a leading zero. */
  ghost predicate Writes(s: string, n: nat)
  {
    s != "" && AllDigits(s) && Parse(s) == n && (n > 0 ==> s[0] != '0')
  }

  lemma DigitsWrite(n: nat)
    ensures Writes(Digits(n), n)
  {
    ParseDigits(n);
    DigitsLead(n);
  }

  lemma NumberedLabel(last: string, offset: nat)
    requires !IsYear(last)
    ensures var text := PeriodLabel(last, offset);
            |text| == 9 + |Digits(offset)| && text[..9] == "Forecast " && text[9..] == Digits(offset)
  {
    hide Digits, IsYear;
  }

  /** After a year the labels are the following years; otherwise they count from one. */
  lemma LabelsFollowLast(last: string, count: nat, i: nat)
    requires i < count
    ensures var text := ForecastPeriods(last, count)[i];
            if IsYear(last) then Writes(text, Parse(last) + i + 1)
            else |text| > 9 && text[..9] == "Forecast " && Writes(text[9..], i + 1)
  {
    hide Digits, Parse, Writes;
    if IsYear(last) {
      DigitsWrite(Parse(last) + i + 1);
    } else {
      DigitsWrite(i + 1);
      NumberedLabel(last, i + 1);
    }
  }

  /** Forecast periods never repeat. */
  lemma PeriodsDistinct(last: string, count: nat)
    ensures forall i, j | 0 <= i < j < count :: ForecastPeriods(last, count)[i] != ForecastPeriods(last, count)[j]
  {
    hide Digits, Parse;
    var r := ForecastPeriods(last, count);
    forall i, j | 0 <= i < j < count ensures r[i] != r[j] {
      if r[i] == r[j] {
        if IsYear(last) {
          DigitsInjective(Parse(last) + i + 1, Parse(last) + j + 1);
        } else {
          assert r[i][9..] == Digits(i + 1) && r[j][9..] == Digits(j + 1);
          DigitsInjective(i + 1, j + 1);
        }
      }
    }
  }

  // ---------------------------------------------------------------- reading inputs

  function LastOf(series: Option<seq<Json>>): Option<real>
  {
    if series.None? || series.value == [] then None else DecimalOf(series.value[|series.value| - 1])
  }

  function Selected(m: ModelInput): Option<Adjustment>
  {
    if m.adjustments.Some? && m.scenario in m.adjustments.value then m.adjustments.value[m.scenario] else None
  }

  /** `_forecast_inputs` of the workbook provider. */
  function ForecastInputs(m: ModelInput): Result<Inputs, InputError>
  {
    if !(m.horizon.JInt? && m.horizon.i >= 1) then Err(BadHorizon)
    else if m.scenario !in SCENARIOS then Err(BadScenario)
    else if Selected(m).None? then Err(BadAdjustments)
    else if m.revenue.None? || m.costs.None? then Err(BadHistory)
    else
      var chosen := Selected(m).value;
      var growth, costGrowth := DecimalOf(m.revenueGrowth), DecimalOf(m.costGrowth);
      var delta, costDelta := DecimalOf(chosen.revenueDelta), DecimalOf(chosen.costDelta);
      if growth.None? || costGrowth.None? || delta.None? || costDelta.None? then Err(BadNumber)
      else if m.periods == [] then Err(BadHistory)
      else if LastOf(m.revenue).None? || LastOf(m.costs).None? then Err(BadNumber)
      else Ok(Inputs(
                m.horizon.i, m.scenario, ForecastPeriods(m.periods[|m.periods| - 1], m.horizon.i),
                growth.value, costGrowth.value, delta.value, costDelta.value,
                LastOf(m.revenue).value, LastOf(m.costs).value))
  }

  // ---------------------------------------------------------------- values

  /** A base compounded over `n` periods. */
  ghost function Compounded(base: real, factor: real, n: nat): real
  {
    if n == 0 then base else Compounded(base, factor, n - 1) * factor
  }

  ghost function RevenueAt(inputs: Inputs, n: nat): real
  {
    Compounded(inputs.lastRevenue, 1.0 + inputs.revenueGrowth + inputs.revenueDelta, n)
  }

  ghost function CostAt(inputs: Inputs, n: nat): real
  {
    Compounded(inputs.lastCost, 1.0 + inputs.costGrowth + inputs.costDelta, n)
  }

  /** A published row; amounts are in hundredths. */
  datatype ForecastRow = ForecastRow(period: string, revenue: int, costs: int, profit: int)

  /** Row `n` publishes the rounded revenue, cost and difference after `n + 1` periods. */
  ghost predicate IsRow(inputs: Inputs, n: nat, row: ForecastRow)
    requires n < |inputs.periods|
  {
    && row.period == inputs.periods[n]
    && row.revenue == Cents(RevenueAt(inputs, n + 1))
    && row.costs == Cents(CostAt(inputs, n + 1))
    && row.profit == Cents(RevenueAt(inputs, n + 1) - CostAt(inputs, n + 1))
  }

  ghost predicate AreRows(inputs: Inputs, rows: seq<ForecastRow>)
  {
    |rows| == |inputs.periods| && forall n | 0 <= n < |rows| :: IsRow(inputs, n, rows[n])
  }

  /** `_forecast_values` of the workbook provider. */
  method ForecastValues(inputs: Inputs) returns (rows: seq<ForecastRow>)
    ensures AreRows(inputs, rows)
  {
    hide Cents;
    var revenue, cost := inputs.lastRevenue, inputs.lastCost;
    rows := [];
    for n := 0 to |inputs.periods|
      invariant |rows| == n
      invariant revenue == RevenueAt(inputs, n) && cost == CostAt(inputs, n)
      invariant forall i | 0 <= i < n :: IsRow(inputs, i, rows[i])
    {
      revenue := revenue * (1.0 + inputs.revenueGrowth + inputs.revenueDelta);
      cost := cost * (1.0 + inputs.costGrowth + inputs.costDelta);
      rows := rows + [ForecastRow(inputs.periods[n], Cents(revenue), Cents(cost), Cents(revenue - cost))];
    }
  }

  /** `calculate_forecast` of the Python provider, with its own reading of the input. */
  method CalculateForecast(m: ModelInput) returns (r: Result<seq<ForecastRow>, InputError>)
    ensures r.Ok? <==> ForecastInputs(m).Ok?
    ensures r.Ok? ==> AreRows(ForecastInputs(m).value, r.value)
    ensures r.Ok? <==> Usable(m)
    ensures r.Ok? ==> Publishes(m, r.value)
    ensures r.Err? ==>
              r.error == if !m.horizon.JInt? || m.horizon.i < 1 then BadHorizon
                         else if m.scenario !in {"base", "upside", "downside"} then BadScenario
                         else if m.adjustments.None? || m.scenario !in m.adjustments.value
                                 || m.adjustments.value[m.scenario].None? then BadAdjustments
                         else if !RatesRead(m, m.adjustments.value[m.scenario].value) then BadNumber
                         else BadHistory
  {
    UsableIff(m);
    hide Usable, Publishes;
    if !m.horizon.JInt? || m.horizon.i < 1 {
      return Err(BadHorizon);
    }
    if m.scenario !in SCENARIOS {
      return Err(BadScenario);
    }
    if m.adjustments.None? || m.scenario !in m.adjustments.value || m.adjustments.value[m.scenario].None? {
      return Err(BadAdjustments);
    }
    var chosen := m.adjustments.value[m.scenario].value;
    var growth, delta := DecimalOf(m.revenueGrowth), DecimalOf(chosen.revenueDelta);
    var costGrowth, costDelta := DecimalOf(m.costGrowth), DecimalOf(chosen.costDelta);
    if growth.None? || delta.None? || costGrowth.None? || costDelta.None? {
      return Err(BadNumber);
    }
    var revenueRate, costRate := growth.value + delta.value, costGrowth.value + costDelta.value;
    var lastRevenue, lastCost := LastOf(m.revenue), LastOf(m.costs);
    if lastRevenue.None? || lastCost.None? || m.periods == [] {
      return Err(BadHistory);
    }
    var periods := ForecastPeriods(m.periods[|m.periods| - 1], m.horizon.i);
    var rows := CompoundRows(
      ForecastInputs(m).value, periods, lastRevenue.value, lastCost.value, revenueRate, costRate);
    RowsPublish(m, rows);
    r := Ok(rows);
  }

  /** The loop of `calculate_forecast`, over the rates it has summed. */
  method CompoundRows(
    ghost inputs: Inputs, periods: seq<string>, lastRevenue: real, lastCost: real, revenueRate: real, costRate: real)
    returns (rows: seq<ForecastRow>)
    requires inputs.periods == periods && inputs.lastRevenue == lastRevenue && inputs.lastCost == lastCost
    requires revenueRate == inputs.revenueGrowth + inputs.revenueDelta
    requires costRate == inputs.costGrowth + inputs.costDelta
    ensures AreRows(inputs, rows)
  {
    hide Cents;
    var revenue, costs := lastRevenue, lastCost;
    assert 1.0 + revenueRate == 1.0 + inputs.revenueGrowth + inputs.revenueDelta;
    assert 1.0 + costRate == 1.0 + inputs.costGrowth + inputs.costDelta;
    rows := [];
    for n := 0 to |periods|
      invariant |rows| == n
      invariant revenue == RevenueAt(inputs, n) && costs == CostAt(inputs, n)
      invariant forall i | 0 <= i < n :: IsRow(inputs, i, rows[i])
    {
      revenue := revenue * (1.0 + revenueRate);
      costs := costs * (1.0 + costRate);
      rows := rows + [ForecastRow(periods[n], Cents(revenue), Cents(costs), Cents(revenue - costs))];
    }
  }

  /** Both providers accept the same inputs and publish the same rows. */
  lemma ProvidersAgree(inputs: Inputs, native: seq<ForecastRow>, python: seq<ForecastRow>)
    requires AreRows(inputs, native) && AreRows(inputs, python)
    ensures native == python
  {
    forall n | 0 <= n < |native| ensures native[n] == python[n] {
      assert IsRow(inputs, n, native[n]) && IsRow(inputs, n, python[n]);
    }
  }

  /** A published profit is within one hundredth of published revenue less published costs. */
  lemma PublishedProfitReconciles(inputs: Inputs, rows: seq<ForecastRow>, n: nat)
    requires AreRows(inputs, rows) && n < |rows|
    ensures -1 <= rows[n].profit - (rows[n].revenue - rows[n].costs) <= 1
  {
    assert IsRow(inputs, n, rows[n]);
    DifferenceWithinCent(RevenueAt(inputs, n + 1), CostAt(inputs, n + 1));
  }

  // ---------------------------------------------------------------- from the fields of an input

  /** A value that reads as a decimal. */
  ghost predicate Reads(v: Json, x: real)
  {
    v == JDecimal(x) || (v.JInt? && v.i as real == x)
  }

  ghost predicate IsNumber(v: Json)
  {
    v.JInt? || v.JDecimal?
  }

  ghost predicate RatesRead(m: ModelInput, chosen: Adjustment)
  {
    IsNumber(m.revenueGrowth) && IsNumber(m.costGrowth) && IsNumber(chosen.revenueDelta) && IsNumber(chosen.costDelta)
  }

  /** The last value of a history reads as `x`. */
  ghost predicate EndsIn(series: seq<Json>, x: real)
  {
    series != [] && Reads(series[|series| - 1], x)
  }

  /** What both providers ask of a model input. */
  ghost predicate Usable(m: ModelInput)
  {
    && m.horizon.JInt? && m.horizon.i >= 1
    && m.scenario in {"base", "upside", "downside"}
    && m.adjustments.Some? && m.scenario in m.adjustments.value && m.adjustments.value[m.scenario].Some?
    && IsNumber(m.revenueGrowth) && IsNumber(m.costGrowth)
    && IsNumber(m.adjustments.value[m.scenario].value.revenueDelta)
    && IsNumber(m.adjustments.value[m.scenario].value.costDelta)
    && m.periods != []
    && m.revenue.Some? && m.revenue.value != [] && IsNumber(m.revenue.value[|m.revenue.value| - 1])
    && m.costs.Some? && m.costs.value != [] && IsNumber(m.costs.value[|m.costs.value| - 1])
  }

  /** The label of forecast period `n`: the next years after a year, or numbers from one. */
  ghost predicate IsLabel(last: string, n: nat, text: string)
  {
    if FourDigits(last) then Writes(text, YearOf(last) + n + 1)
    else |text| > 9 && text[..9] == "Forecast " && Writes(text[9..], n + 1)
  }

  ghost predicate FourDigits(s: string)
  {
    |s| == 4 && forall i | 0 <= i < 4 :: 48 <= s[i] as int <= 57
  }

  ghost function YearOf(s: string): int
    requires FourDigits(s)
  {
    1000 * (s[0] as int - 48) + 100 * (s[1] as int - 48) + 10 * (s[2] as int - 48) + (s[3] as int - 48)
  }

  lemma YearIff(s: string)
    ensures IsYear(s) <==> FourDigits(s)
    ensures FourDigits(s) ==> Parse(s) == YearOf(s)
  {
    if FourDigits(s) {
      forall c | c in s ensures '0' <= c <= '9' {
        var i :| 0 <= i < |s| && s[i] == c;
      }
      var three, two, one := s[..3], s[..2], s[..1];
      assert three[..2] == two && two[..1] == one && one[..0] == "";
      ParseLast(s);
      ParseLast(three);
      ParseLast(two);
      ParseLast(one);
      hide Parse;
      assert Parse(one) == s[0] as int - 48;
      assert Parse(two) == Parse(one) * 10 + (s[1] as int - 48);
      assert Parse(three) == Parse(two) * 10 + (s[2] as int - 48);
    }
    if IsYear(s) {
      assert forall i | 0 <= i < 4 :: s[i] in s;
    }
  }

  lemma ParseLast(s: string)
    requires AllDigits(s) && s != ""
    ensures AllDigits(s[..|s| - 1])
    ensures Parse(s) == Parse(s[..|s| - 1]) * 10 + (s[|s| - 1] as int - 48)
    ensures Parse("") == 0
  {
    var front := s[..|s| - 1];
    forall c | c in front ensures '0' <= c <= '9' {
      assert c in s;
    }
  }

  /** The published rows: the last actuals compounded at the base rates plus those of the chosen scenario. */
  ghost predicate PublishesAt(
    m: ModelInput, rows: seq<ForecastRow>, revenue: real, costs: real, growth: real, costGrowth: real,
    delta: real, costDelta: real)
    requires Usable(m)
  {
    && EndsIn(m.revenue.value, revenue) && EndsIn(m.costs.value, costs)
    && Reads(m.revenueGrowth, growth) && Reads(m.costGrowth, costGrowth)
    && Reads(m.adjustments.value[m.scenario].value.revenueDelta, delta)
    && Reads(m.adjustments.value[m.scenario].value.costDelta, costDelta)
    && |rows| == m.horizon.i
    && forall n | 0 <= n < |rows| ::
         && IsLabel(m.periods[|m.periods| - 1], n, rows[n].period)
         && ShowsAmounts(
              rows[n], Compounded(revenue, 1.0 + growth + delta, n + 1),
              Compounded(costs, 1.0 + costGrowth + costDelta, n + 1))
  }

  ghost predicate ShowsAmounts(row: ForecastRow, revenue: real, costs: real)
  {
    row.revenue == Cents(revenue) && row.costs == Cents(costs) && row.profit == Cents(revenue - costs)
  }

  ghost predicate Publishes(m: ModelInput, rows: seq<ForecastRow>)
  {
    && Usable(m)
    && exists revenue, costs, growth, costGrowth, delta, costDelta ::
         PublishesAt(m, rows, revenue, costs, growth, costGrowth, delta, costDelta)
  }

  lemma DecimalReads(v: Json)
    ensures DecimalOf(v).Some? <==> IsNumber(v)
    ensures DecimalOf(v).Some? ==> Reads(v, DecimalOf(v).value)
  {
  }

  /** The workbook provider accepts exactly the usable inputs. */
  lemma UsableIff(m: ModelInput)
    ensures ForecastInputs(m).Ok? <==> Usable(m)
  {
    hide ForecastPeriods;
  }

  /** The inputs of a calculation hold what the fields of a usable input say. */
  ghost predicate ReadAs(m: ModelInput, i: Inputs)
    requires Usable(m)
  {
    var chosen := m.adjustments.value[m.scenario].value;
    && i.horizon == m.horizon.i && i.scenario == m.scenario
    && EndsIn(m.revenue.value, i.lastRevenue) && EndsIn(m.costs.value, i.lastCost)
    && Reads(m.revenueGrowth, i.revenueGrowth) && Reads(m.costGrowth, i.costGrowth)
    && Reads(chosen.revenueDelta, i.revenueDelta) && Reads(chosen.costDelta, i.costDelta)
    && |i.periods| == m.horizon.i
    && forall n | 0 <= n < |i.periods| :: IsLabel(m.periods[|m.periods| - 1], n, i.periods[n])
  }

  /** What `ForecastInputs` takes from an input, field by field. */
  lemma InputsAreRead(m: ModelInput)
    requires Usable(m)
    ensures ForecastInputs(m).Ok?
    ensures ReadAs(m, ForecastInputs(m).value)
  {
    hide ForecastPeriods, IsLabel;
    UsableIff(m);
    PeriodsLabel(m.periods[|m.periods| - 1], m.horizon.i);
  }

  lemma PeriodsLabel(last: string, count: nat)
    ensures |ForecastPeriods(last, count)| == count
    ensures forall n | 0 <= n < count :: IsLabel(last, n, ForecastPeriods(last, count)[n])
  {
    hide IsLabel, ForecastPeriods;
    forall n | 0 <= n < count ensures IsLabel(last, n, ForecastPeriods(last, count)[n]) {
      LabelAt(last, count, n);
    }
  }

  lemma LabelAt(last: string, count: nat, n: nat)
    requires n < count
    ensures IsLabel(last, n, ForecastPeriods(last, count)[n])
  {
    LabelsFollowLast(last, count, n);
    YearIff(last);
    hide ForecastPeriods, Writes, Parse, YearOf, FourDigits;
  }

  lemma RowShows(m: ModelInput, i: Inputs, n: nat, row: ForecastRow)
    requires m.periods != [] && n < |i.periods| && IsRow(i, n, row)
    requires IsLabel(m.periods[|m.periods| - 1], n, i.periods[n])
    ensures IsLabel(m.periods[|m.periods| - 1], n, row.period)
    ensures ShowsAmounts(
              row, Compounded(i.lastRevenue, 1.0 + i.revenueGrowth + i.revenueDelta, n + 1),
              Compounded(i.lastCost, 1.0 + i.costGrowth + i.costDelta, n + 1))
  {
    hide IsLabel, Cents, Compounded;
  }

  lemma RowsPublishAt(m: ModelInput, i: Inputs, rows: seq<ForecastRow>)
    requires Usable(m) && ReadAs(m, i) && AreRows(i, rows)
    ensures PublishesAt(
              m, rows, i.lastRevenue, i.lastCost, i.revenueGrowth, i.costGrowth, i.revenueDelta, i.costDelta)
  {
    hide IsLabel, Cents, Reads, EndsIn, Compounded, IsRow, ShowsAmounts, RevenueAt, CostAt;
    forall n | 0 <= n < |rows| { RowShows(m, i, n, rows[n]); }
  }

  /** Rows that either provider computes are those told by the fields of the input. */
  lemma RowsPublish(m: ModelInput, rows: seq<ForecastRow>)
    requires Usable(m) && ForecastInputs(m).Ok? && AreRows(ForecastInputs(m).value, rows)
    ensures Publishes(m, rows)
  {
    InputsAreRead(m);
    hide ForecastInputs, Usable, ReadAs, AreRows, PublishesAt;
    RowsPublishAt(m, ForecastInputs(m).value, rows);
  }

  /** What an unusable input is refused for, in the order in which the fields are read. */
  lemma InputRefusedFor(m: ModelInput)
    ensures var r := ForecastInputs(m);
            if !m.horizon.JInt? || m.horizon.i < 1 then r == Err(BadHorizon)
            else if m.scenario !in {"base", "upside", "downside"} then r == Err(BadScenario)
            else if m.adjustments.None? || m.scenario !in m.adjustments.value
                    || m.adjustments.value[m.scenario].None?
            then r == Err(BadAdjustments)
            else if m.revenue.None? || m.costs.None? then r == Err(BadHistory)
            else r.Err? ==> r.error == BadNumber || (r.error == BadHistory && m.periods == [])
  {
    hide ForecastPeriods;
  }
}
