/**
 * Accepting a recalculated workbook against its write plan (`workbook/calculation_public.py`,
 * `workbook/calculation.py`).
 */
module Acceptance {
  import opened Results
  import opened Sorting

  datatype Value = Blank | Text(s: string) | Number(r: real) | Boolean(b: bool)

  datatype Cell = Cell(value: Value, locked: bool, format: string)

  /** A cell met by the scan of a whole workbook, with its cached value. */
  datatype Scanned = Scanned(formula: bool, cached: Value)

  /** Sheets in order, the cells of each range that can be addressed, and every cell for scanning. */
  datatype Workbook = Workbook(sheets: seq<string>, ranges: map<(string, string), seq<Cell>>, all: seq<Scanned>)

  datatype OutputType = Numeric | Logical | OtherOutput

  datatype Write =
    | EnsureSheet(position: nat)
    | ReserveInput
    | WriteValue(value: Value)
    | WriteFormula(formula: string, output: OutputType, neverNegative: bool)
    | ApplyStyle(locked: bool, format: string, logical: bool)
    | Unsupported

  /** `first` is the first cell of `coordinate`. */
  datatype Record = Record(id: string, sheet: string, coordinate: string, first: string, write: Write)

  /** Formula and number format comparison up to the changes an engine may make. */
  datatype Equivalence = Equivalence(formulas: (string, Value) -> bool, formats: (string, string, bool) -> bool)

  datatype Code =
    | SheetMissing | SheetPosition | ValueMismatch | FormulaMismatch | Protection | NumberFormat
    | UnsupportedWrite | VerificationError | InputsIncomplete

  const INCOMPLETE := "reserved_inputs_incomplete"
  const SOURCE := "source"

  datatype Scope = Input | Output

  datatype Failure = Failure(scope: Scope, id: string, code: Code)

  // ---------------------------------------------------------------- verifying records

  function NumberOf(v: Value): Option<real>
  {
    match v
    case Number(r) => Some(r)
    case Boolean(b) => Some(if b then 1.0 else 0.0)
    case _ => None
  }

  /** Python equality: a boolean equals the number one or zero. */
  predicate SameValue(a: Value, b: Value)
  {
    a == b || (NumberOf(a).Some? && NumberOf(a) == NumberOf(b))
  }

  predicate Populated(cell: Cell)
  {
    cell.value != Blank && cell.value != Text("")
  }

  function IndexIn(sheets: seq<string>, name: string): nat
    requires name in sheets
  {
    if sheets[0] == name then 0 else 1 + IndexIn(sheets[1..], name)
  }

  function StyleIssue(eq: Equivalence, cells: seq<Cell>, w: Write): Option<Code>
    requires w.ApplyStyle?
  {
    if cells == [] then None
    else if cells[0].locked != w.locked then Some(Protection)
    else if w.format != SOURCE && !eq.formats(w.format, cells[0].format, w.logical) then Some(NumberFormat)
    else StyleIssue(eq, cells[1..], w)
  }

  /** The issue found with one record, if any. */
  function Issue(eq: Equivalence, book: Workbook, record: Record): Option<Code>
  {
    if record.sheet !in book.sheets then Some(SheetMissing)
    else if record.write.EnsureSheet? then
      if IndexIn(book.sheets, record.sheet) + 1 != record.write.position then Some(SheetPosition) else None
    else if (record.sheet, record.coordinate) !in book.ranges then Some(VerificationError)
    else
      var cells := book.ranges[(record.sheet, record.coordinate)];
      match record.write
      case ReserveInput => None
      case WriteValue(value) => if |cells| != 1 || !SameValue(cells[0].value, value) then Some(ValueMismatch) else None
      case WriteFormula(formula, _, _) =>
        if |cells| != 1 || !eq.formulas(formula, cells[0].value) then Some(FormulaMismatch) else None
      case ApplyStyle(_, _, _) => StyleIssue(eq, cells, record.write)
      case _ => Some(UnsupportedWrite)
  }

  /** A style is found exactly when every cell of the range has it. */
  lemma {:induction false} StyleFoundIff(eq: Equivalence, cells: seq<Cell>, w: Write)
    requires w.ApplyStyle?
    ensures StyleIssue(eq, cells, w).None? <==>
            forall cell | cell in cells ::
              cell.locked == w.locked && (w.format == SOURCE || eq.formats(w.format, cell.format, w.logical))
  {
    if cells != [] {
      StyleFoundIff(eq, cells[1..], w);
    }
  }

  /** The cells a record reserves for input, when they can be reached. */
  function InputCells(book: Workbook, record: Record): seq<Cell>
  {
    if record.write.ReserveInput? && record.sheet in book.sheets && (record.sheet, record.coordinate) in book.ranges
    then book.ranges[(record.sheet, record.coordinate)] else []
  }

  function CountPopulated(cells: seq<Cell>): (n: nat)
    ensures n <= |cells|
    ensures n == |cells| <==> forall i | 0 <= i < |cells| :: Populated(cells[i])
  {
    if cells == [] then 0
    else
      var front := CountPopulated(cells[..|cells| - 1]);
      assert forall i | 0 <= i < |cells| - 1 :: cells[..|cells| - 1][i] == cells[i];
      front + (if Populated(cells[|cells| - 1]) then 1 else 0)
  }

  datatype Verification = Verification(
    verified: seq<string>, failures: seq<(string, Code)>, inputs: nat, populated: nat)

  ghost predicate InputPopulated(book: Workbook, record: Record)
  {
    forall i | 0 <= i < |InputCells(book, record)| :: Populated(InputCells(book, record)[i])
  }

  ghost predicate InputsPopulated(book: Workbook, plan: seq<Record>)
  {
    forall record | record in plan :: InputPopulated(book, record)
  }

  function Clean(eq: Equivalence, book: Workbook, plan: seq<Record>): seq<string>
  {
    if plan == [] then []
    else
      var last := plan[|plan| - 1];
      Clean(eq, book, plan[..|plan| - 1]) + (if Issue(eq, book, last).None? then [last.id] else [])
  }

  function Failing(eq: Equivalence, book: Workbook, plan: seq<Record>): seq<(string, Code)>
  {
    if plan == [] then []
    else
      var last := plan[|plan| - 1];
      Failing(eq, book, plan[..|plan| - 1])
        + (if Issue(eq, book, last).Some? then [(last.id, Issue(eq, book, last).value)] else [])
  }

  lemma {:induction false} CleanIff(eq: Equivalence, book: Workbook, plan: seq<Record>, id: string)
    ensures id in Clean(eq, book, plan) <==> exists r | r in plan :: r.id == id && Issue(eq, book, r).None?
  {
    hide Issue;
    if plan != [] {
      var front, last := plan[..|plan| - 1], plan[|plan| - 1];
      CleanIff(eq, book, front, id);
      assert plan == front + [last];
      var tail := if Issue(eq, book, last).None? then [last.id] else [];
      assert Clean(eq, book, plan) == Clean(eq, book, front) + tail;
      hide Clean;
      assert last in plan;
    }
  }

  lemma {:induction false} FailingIff(eq: Equivalence, book: Workbook, plan: seq<Record>, id: string, code: Code)
    ensures (id, code) in Failing(eq, book, plan) <==>
            exists r | r in plan :: r.id == id && Issue(eq, book, r) == Some(code)
  {
    hide Issue;
    if plan != [] {
      var front, last := plan[..|plan| - 1], plan[|plan| - 1];
      FailingIff(eq, book, front, id, code);
      assert plan == front + [last];
      var tail := if Issue(eq, book, last).Some? then [(last.id, Issue(eq, book, last).value)] else [];
      assert Failing(eq, book, plan) == Failing(eq, book, front) + tail;
      hide Failing;
      assert last in plan;
    }
  }

  /** Every cell that the plan reserves for input, in plan order. */
  function AllInputs(book: Workbook, plan: seq<Record>): seq<Cell>
  {
    if plan == [] then [] else AllInputs(book, plan[..|plan| - 1]) + InputCells(book, plan[|plan| - 1])
  }

  lemma {:induction false} CountPopulatedConcat(a: seq<Cell>, b: seq<Cell>)
    ensures CountPopulated(a + b) == CountPopulated(a) + CountPopulated(b)
  {
    if b == [] {
      assert a + b == a;
    } else {
      var n := |b| - 1;
      assert (a + b)[..|a + b| - 1] == a + b[..n];
      CountPopulatedConcat(a, b[..n]);
    }
  }

  /** Which records a workbook holds, which it does not and why, and how many reserved cells are filled. */
  function VerificationOf(eq: Equivalence, book: Workbook, plan: seq<Record>): Verification
  {
    var cells := AllInputs(book, plan);
    var marker := if CountPopulated(cells) != |cells| then [(INCOMPLETE, InputsIncomplete)] else [];
    Verification(Clean(eq, book, plan), Failing(eq, book, plan) + marker, |cells|, CountPopulated(cells))
  }

  ghost predicate AllPopulated(cells: seq<Cell>)
  {
    CountPopulated(cells) == |cells|
  }

  lemma AllPopulatedConcat(a: seq<Cell>, b: seq<Cell>)
    ensures AllPopulated(a + b) <==> AllPopulated(a) && AllPopulated(b)
  {
    CountPopulatedConcat(a, b);
    hide CountPopulated, Populated;
  }

  lemma InputPopulatedIff(book: Workbook, record: Record)
    ensures InputPopulated(book, record) <==> AllPopulated(InputCells(book, record))
  {
    hide InputCells, Populated;
  }

  lemma AllInputsNext(book: Workbook, plan: seq<Record>)
    requires plan != []
    ensures AllInputs(book, plan) == AllInputs(book, plan[..|plan| - 1]) + InputCells(book, plan[|plan| - 1])
  {
  }

  /** The two counts agree exactly when every reserved cell is filled. */
  lemma {:induction false} InputsPopulatedIff(book: Workbook, plan: seq<Record>)
    ensures AllPopulated(AllInputs(book, plan)) <==> InputsPopulated(book, plan)
  {
    if plan != [] {
      AllInputsNext(book, plan);
      hide InputPopulated, AllPopulated, AllInputs, InputCells;
      var front, last := plan[..|plan| - 1], plan[|plan| - 1];
      InputsPopulatedIff(book, front);
      AllPopulatedConcat(AllInputs(book, front), InputCells(book, last));
      InputPopulatedIff(book, last);
      assert forall r :: r in plan <==> r in front || r == last by { assert plan == front + [last]; }
    }
  }

  /** `_verify_records`. */
  method VerifyRecords(eq: Equivalence, book: Workbook, plan: seq<Record>) returns (v: Verification)
    ensures v == VerificationOf(eq, book, plan)
  {
    hide Issue, InputCells, Populated;
    var verified, failures, inputs, populated := [], [], 0, 0;
    for n := 0 to |plan|
      invariant verified == Clean(eq, book, plan[..n]) && failures == Failing(eq, book, plan[..n])
      invariant inputs == |AllInputs(book, plan[..n])| && populated == CountPopulated(AllInputs(book, plan[..n]))
    {
      var record := plan[n];
      assert plan[..n + 1][..n] == plan[..n];
      var cells := InputCells(book, record);
      CountPopulatedConcat(AllInputs(book, plan[..n]), cells);
      inputs, populated := inputs + |cells|, populated + CountPopulated(cells);
      var issue := Issue(eq, book, record);
      if issue.None? {
        verified := verified + [record.id];
      } else {
        failures := failures + [(record.id, issue.value)];
      }
    }
    assert plan[..|plan|] == plan;
    if inputs != populated {
      failures := failures + [(INCOMPLETE, InputsIncomplete)];
    }
    v := Verification(verified, failures, inputs, populated);
  }

  // ---------------------------------------------------------------- formula checks and the scan

  const FORMULA_ERRORS := {"#DIV/0!", "#N/A", "#NAME?", "#NULL!", "#NUM!", "#REF!", "#VALUE!"}

  function Upper(s: string): (r: string)
    ensures |r| == |s|
  {
    seq(|s|, i requires 0 <= i < |s| => if 'a' <= s[i] <= 'z' then (s[i] as int - 32) as char else s[i])
  }

  predicate IsError(v: Value)
  {
    v.Text? && Upper(v.s) in FORMULA_ERRORS
  }

  datatype CheckIssue = FormulaGone | CachedMissing | FormulaError | TypeMismatch | SignMismatch

  datatype Check = Check(id: string, passed: bool, issues: seq<CheckIssue>)

  /** The issues of one planned formula: `cell` as recalculated, `cached` its value. */
  function CheckIssues(w: Write, cell: Value, cached: Value): seq<CheckIssue>
    requires w.WriteFormula?
  {
    (if !(cell.Text? && cell.s != "" && cell.s[0] == '=') then [FormulaGone] else [])
    + (if cached.Blank? then [CachedMissing] else if IsError(cached) then [FormulaError] else [])
    + (match w.output
       case Logical => if cached.Boolean? then [] else [TypeMismatch]
       case Numeric => if cached.Number? then [] else [TypeMismatch]
       case OtherOutput => [])
    + (if w.neverNegative && cached.Number? && cached.r < 0.0 then [SignMismatch] else [])
  }

  function ValueIn(book: Workbook, sheet: string, coordinate: string): Value
  {
    if (sheet, coordinate) in book.ranges && book.ranges[(sheet, coordinate)] != []
    then book.ranges[(sheet, coordinate)][0].value else Blank
  }

  function CheckOf(output: Workbook, values: Workbook, record: Record): Check
    requires record.write.WriteFormula?
  {
    var issues := CheckIssues(
      record.write, ValueIn(output, record.sheet, record.first), ValueIn(values, record.sheet, record.first));
    Check(record.id, issues == [], issues)
  }

  function Checks(output: Workbook, values: Workbook, plan: seq<Record>): seq<Check>
  {
    if plan == [] then []
    else
      var last := plan[|plan| - 1];
      Checks(output, values, plan[..|plan| - 1])
        + (if last.write.WriteFormula? then [CheckOf(output, values, last)] else [])
  }

  function FormulaIds(plan: seq<Record>): seq<string>
  {
    if plan == [] then []
    else
      var last := plan[|plan| - 1];
      FormulaIds(plan[..|plan| - 1]) + (if last.write.WriteFormula? then [last.id] else [])
  }

  function CheckIds(checks: seq<Check>): (r: seq<string>)
    ensures |r| == |checks| && forall i | 0 <= i < |r| :: r[i] == checks[i].id
  {
    seq(|checks|, i requires 0 <= i < |checks| => checks[i].id)
  }

  function CountFailed(checks: seq<Check>): (n: nat)
    ensures n == 0 <==> forall i | 0 <= i < |checks| :: checks[i].passed
  {
    if checks == [] then 0
    else
      var front := CountFailed(checks[..|checks| - 1]);
      assert forall i | 0 <= i < |checks| - 1 :: checks[..|checks| - 1][i] == checks[i];
      front + (if checks[|checks| - 1].passed then 0 else 1)
  }

  ghost predicate FormulaSheetsPresent(book: Workbook, plan: seq<Record>)
  {
    forall r | r in plan && r.write.WriteFormula? :: r.sheet in book.sheets
  }

  /** `_formula_checks`: looking up a formula on a sheet that is gone raises. */
  method FormulaChecks(output: Workbook, values: Workbook, plan: seq<Record>) returns (r: Option<seq<Check>>)
    ensures r.Some? <==> FormulaSheetsPresent(output, plan)
    ensures r.Some? ==> r.value == Checks(output, values, plan)
  {
    hide CheckOf;
    var checks := [];
    for n := 0 to |plan|
      invariant checks == Checks(output, values, plan[..n]) && FormulaSheetsPresent(output, plan[..n])
    {
      assert plan[..n + 1] == plan[..n] + [plan[n]] && plan[..n + 1][..n] == plan[..n];
      if plan[n].write.WriteFormula? {
        if plan[n].sheet !in output.sheets {
          return None;
        }
        checks := checks + [CheckOf(output, values, plan[n])];
      }
    }
    assert plan[..|plan|] == plan;
    r := Some(checks);
  }

  datatype Scan = Scan(formulas: int, errors: int, missing: int)

  ghost predicate ScanClean(all: seq<Scanned>)
  {
    forall i | 0 <= i < |all| && all[i].formula :: !all[i].cached.Blank? && !IsError(all[i].cached)
  }

  predicate IsFormula(c: Scanned)
  {
    c.formula
  }

  predicate LacksValue(c: Scanned)
  {
    c.formula && c.cached.Blank?
  }

  predicate HoldsError(c: Scanned)
  {
    c.formula && IsError(c.cached)
  }

  /** Where the cells with a property are. */
  function At(all: seq<Scanned>, p: Scanned -> bool): set<nat>
  {
    set i: nat | i < |all| && p(all[i])
  }

  function ScanOf(all: seq<Scanned>): Scan
  {
    Scan(|At(all, IsFormula)|, |At(all, HoldsError)|, |At(all, LacksValue)|)
  }

  lemma AtNext(all: seq<Scanned>, cell: Scanned, p: Scanned -> bool)
    ensures |At(all + [cell], p)| == |At(all, p)| + if p(cell) then 1 else 0
  {
    assert At(all + [cell], p) == At(all, p) + if p(cell) then {|all|} else {};
  }

  lemma ScanNext(all: seq<Scanned>, cell: Scanned)
    ensures var before, after := ScanOf(all), ScanOf(all + [cell]);
            && after.formulas == before.formulas + (if cell.formula then 1 else 0)
            && after.missing == before.missing + (if cell.formula && cell.cached.Blank? then 1 else 0)
            && after.errors == before.errors + (if cell.formula && IsError(cell.cached) then 1 else 0)
  {
    hide IsError, At;
    AtNext(all, cell, IsFormula);
    AtNext(all, cell, LacksValue);
    AtNext(all, cell, HoldsError);
  }

  lemma BlankIsNoError(v: Value)
    ensures v.Blank? ==> !IsError(v)
  {
  }

  /** `_scan_all_formula_cells`: counts the formula cells, those without a value and those in error. */
  method ScanFormulas(all: seq<Scanned>) returns (s: Scan)
    ensures s == ScanOf(all)
  {
    hide IsError;
    s := Scan(0, 0, 0);
    for n := 0 to |all|
      invariant s == ScanOf(all[..n])
    {
      assert all[..n + 1] == all[..n] + [all[n]];
      ScanNext(all[..n], all[n]);
      BlankIsNoError(all[n].cached);
      hide ScanOf;
      if all[n].formula {
        s := s.(formulas := s.formulas + 1);
        if all[n].cached.Blank? {
          s := s.(missing := s.missing + 1);
        } else if IsError(all[n].cached) {
          s := s.(errors := s.errors + 1);
        }
      }
    }
    assert all[..|all|] == all;
  }

  /** Nothing is counted against a workbook exactly when every formula has a value that is no error. */
  lemma ScanCleanIff(all: seq<Scanned>)
    ensures ScanOf(all).errors >= 0 && ScanOf(all).missing >= 0
    ensures ScanOf(all).errors == 0 && ScanOf(all).missing == 0 <==> ScanClean(all)
  {
    hide IsError;
    assert ScanOf(all).missing == 0 <==> At(all, LacksValue) == {};
    assert ScanOf(all).errors == 0 <==> At(all, HoldsError) == {};
    assert forall i: nat | i < |all| && LacksValue(all[i]) :: i in At(all, LacksValue);
    assert forall i: nat | i < |all| && HoldsError(all[i]) :: i in At(all, HoldsError);
  }

  // ---------------------------------------------------------------- the acceptance

  datatype Summary = Summary(
    records: int, failures: int, inputs: int, populated: int, formulas: int, formulaFailures: int,
    scanned: int, scanErrors: int, scanMissing: int)

  datatype Immutable = Immutable(
    verified: seq<string>, failed: seq<(Scope, string)>, failures: seq<Failure>, count: int,
    inputs: int, populated: int)

  datatype Payload = Payload(passed: bool, summary: Summary, immutable: Immutable, checks: seq<Check>, scan: Scan)

  function RecordIds(plan: seq<Record>): (r: seq<string>)
    ensures |r| == |plan| && forall i | 0 <= i < |r| :: r[i] == plan[i].id
  {
    seq(|plan|, i requires 0 <= i < |plan| => plan[i].id)
  }

  function Scoped(scope: Scope, failures: seq<(string, Code)>): (r: seq<Failure>)
    ensures |r| == |failures| && forall i | 0 <= i < |r| :: r[i] == Failure(scope, failures[i].0, failures[i].1)
  {
    seq(|failures|, i requires 0 <= i < |failures| => Failure(scope, failures[i].0, failures[i].1))
  }

  function FailedIds(failures: seq<Failure>): (r: seq<(Scope, string)>)
    ensures |r| == |failures| && forall i | 0 <= i < |r| :: r[i] == (failures[i].scope, failures[i].id)
  {
    seq(|failures|, i requires 0 <= i < |failures| => (failures[i].scope, failures[i].id))
  }

  /** The identifiers on both lists, in plan order. */
  function Both(ids: seq<string>, a: seq<string>, b: seq<string>): (r: seq<string>)
    ensures forall x :: x in r <==> x in ids && x in a && x in b
  {
    if ids == [] then []
    else
      var front, last := Both(ids[..|ids| - 1], a, b), ids[|ids| - 1];
      assert ids == ids[..|ids| - 1] + [last];
      front + (if last in a && last in b then [last] else [])
  }

  lemma {:induction false} BothDistinct(ids: seq<string>, a: seq<string>, b: seq<string>)
    requires Distinct(ids)
    ensures Distinct(Both(ids, a, b))
  {
    if ids != [] {
      var n := |ids| - 1;
      BothDistinct(ids[..n], a, b);
      assert ids[n] !in ids[..n];
    }
  }

  function FailureCount(s: Summary): int
  {
    s.failures + s.formulaFailures + s.scanErrors + s.scanMissing
  }

  /** The combination step of `accept_calculated_workbook_bytes`. */
  function Combine(
    plan: seq<Record>, input: Verification, output: Verification, checks: seq<Check>, scan: Scan): Payload
  {
    var verified := Both(RecordIds(plan), input.verified, output.verified);
    var failures := Scoped(Input, input.failures) + Scoped(Output, output.failures);
    var failed := Unique(FailedIds(failures));
    var immutable := Immutable(verified, failed, failures, |verified|, input.inputs, input.populated);
    var summary := Summary(
      |verified|, |failed|, input.inputs, input.populated, |checks|, CountFailed(checks), scan.formulas, scan.errors,
      scan.missing);
    Payload(FailureCount(summary) == 0, summary, immutable, checks, scan)
  }

  /** The acceptance of a recalculation, when every planned formula can be looked up. */
  function AcceptanceOf(
    eq: Equivalence, plan: seq<Record>, input: Workbook, output: Workbook, values: Workbook): Payload
  {
    Combine(plan, VerificationOf(eq, input, plan), VerificationOf(eq, output, plan),
            Checks(output, values, plan), ScanOf(output.all))
  }

  method Accept(eq: Equivalence, plan: seq<Record>, input: Workbook, output: Workbook, values: Workbook)
    returns (r: Option<Payload>)
    ensures r.Some? <==> FormulaSheetsPresent(output, plan)
    ensures r.Some? ==> r.value == AcceptanceOf(eq, plan, input, output, values)
  {
    hide VerificationOf, Checks, ScanOf, FormulaSheetsPresent, Combine;
    var checks := FormulaChecks(output, values, plan);
    if checks.None? {
      return None;
    }
    var scan := ScanFormulas(output.all);
    var i := VerifyRecords(eq, input, plan);
    var o := VerifyRecords(eq, output, plan);
    r := Some(Combine(plan, i, o, checks.value, scan));
  }

  const RATIO := Record("fmrw_1", "Checks", "B2", "B2", WriteFormula("=B1", Numeric, false))
  const OTHER_SHEET := Workbook(["Inputs"], map[], [])

  /**
   * A plan with one formula and a workbook without its sheet: verifying the record reports a
   * missing sheet, but the acceptance raises before it gets there.
   */
  lemma MissingSheetRaises(eq: Equivalence)
    ensures ValidPlan([RATIO]) && !FormulaSheetsPresent(OTHER_SHEET, [RATIO])
    ensures VerificationOf(eq, OTHER_SHEET, [RATIO]).failures == [(RATIO.id, SheetMissing)]
  {
    assert RATIO in [RATIO];
    assert "Checks"[0] != "Inputs"[0];
    assert [RATIO][..0] == [];
    assert Failing(eq, OTHER_SHEET, [RATIO]) == [(RATIO.id, SheetMissing)];
    assert AllInputs(OTHER_SHEET, [RATIO]) == [];
  }

  // ---------------------------------------------------------------- the validator

  datatype AcceptanceIssue =
    | NegativeCount | StatusMismatch | CheckInconsistent
    | VerifiedRepeats | VerifiedCount | FailedRepeats | FailureWithoutRecord | FailedMismatch
    | RecordCount | FailureCountMismatch | InputCount | PopulatedCount
    | FormulaCount | FormulaFailureCount | ScanCounts
    | UnknownVerified | UnknownFailed | Unaccounted | FormulasMismatch

  function Found(b: bool, issue: AcceptanceIssue): set<AcceptanceIssue>
  {
    if b then {issue} else {}
  }

  predicate NonNegative(s: Summary)
  {
    && s.records >= 0 && s.failures >= 0 && s.inputs >= 0 && s.populated >= 0 && s.formulas >= 0
    && s.formulaFailures >= 0 && s.scanned >= 0 && s.scanErrors >= 0 && s.scanMissing >= 0
  }

  /** The records that fail, leaving out the marker of incomplete inputs. */
  function FailedRecords(failures: seq<Failure>): set<string>
  {
    set f | f in failures && f.id != INCOMPLETE :: f.id
  }

  function Members(s: seq<string>): set<string>
  {
    set x | x in s
  }

  function VerificationIssues(p: Payload): set<AcceptanceIssue>
  {
    var s, v := p.summary, p.immutable;
    Found(s.records != v.count, RecordCount) + Found(s.failures != |v.failed|, FailureCountMismatch)
    + Found(s.inputs != v.inputs, InputCount) + Found(s.populated != v.populated, PopulatedCount)
  }

  function FormulaIssues(p: Payload): set<AcceptanceIssue>
  {
    var s := p.summary;
    Found(s.formulas != |p.checks|, FormulaCount)
    + Found(s.formulaFailures != CountFailed(p.checks), FormulaFailureCount)
    + Found((s.scanned, s.scanErrors, s.scanMissing) != (p.scan.formulas, p.scan.errors, p.scan.missing), ScanCounts)
  }

  function CountIssues(p: Payload): set<AcceptanceIssue>
  {
    Found(!NonNegative(p.summary), NegativeCount)
    + Found(p.passed != (FailureCount(p.summary) == 0), StatusMismatch)
    + VerificationIssues(p) + FormulaIssues(p)
  }

  function ListIssues(p: Payload): set<AcceptanceIssue>
  {
    var v := p.immutable;
    Found(exists c | c in p.checks :: c.passed != (c.issues == []), CheckInconsistent)
    + Found(!Distinct(v.verified), VerifiedRepeats) + Found(v.count != |v.verified|, VerifiedCount)
    + Found(!Distinct(v.failed), FailedRepeats)
    + Found(exists f | f in v.failures :: f.id == "", FailureWithoutRecord)
    + Found(v.failed != Unique(FailedIds(v.failures)), FailedMismatch)
  }

  function PlanIssues(p: Payload, plan: seq<Record>): set<AcceptanceIssue>
  {
    var v, ids := p.immutable, Members(RecordIds(plan));
    Found(!(Members(v.verified) <= ids), UnknownVerified)
    + Found(!(FailedRecords(v.failures) <= ids), UnknownFailed)
    + Found(Members(v.verified) + (FailedRecords(v.failures) * ids) != ids, Unaccounted)
    + Found(CheckIds(p.checks) != FormulaIds(plan), FormulasMismatch)
  }

  /** `validate_workbook_calculation_acceptance_payload`, against a plan. */
  function Issues(p: Payload, plan: seq<Record>): set<AcceptanceIssue>
  {
    CountIssues(p) + ListIssues(p) + PlanIssues(p, plan)
  }

  // ---------------------------------------------------------------- producer and validator

  /** Record identifiers as write plans number them. */
  ghost predicate ValidPlan(plan: seq<Record>)
  {
    Distinct(RecordIds(plan)) && forall r | r in plan :: r.id != "" && r.id != INCOMPLETE
  }

  lemma RecordIdIff(plan: seq<Record>, id: string)
    ensures id in RecordIds(plan) <==> exists r | r in plan :: r.id == id
  {
    if id in RecordIds(plan) {
      var i :| 0 <= i < |plan| && RecordIds(plan)[i] == id;
      assert plan[i] in plan;
    }
    if r :| r in plan && r.id == id {
      var i :| 0 <= i < |plan| && plan[i] == r;
      assert RecordIds(plan)[i] == id;
    }
  }

  /** A failure of a verification is of a planned record, or says the inputs are incomplete. */
  lemma FailureOrigin(eq: Equivalence, book: Workbook, plan: seq<Record>, f: (string, Code))
    requires f in VerificationOf(eq, book, plan).failures
    ensures f.0 in RecordIds(plan) || f.0 == INCOMPLETE
  {
    FailingIff(eq, book, plan, f.0, f.1);
    RecordIdIff(plan, f.0);
  }

  /** Every planned record is verified or fails. */
  lemma VerifiedOrFails(eq: Equivalence, book: Workbook, plan: seq<Record>, id: string)
    requires id in RecordIds(plan)
    ensures var v := VerificationOf(eq, book, plan); id in v.verified || exists c :: (id, c) in v.failures
  {
    hide Issue;
    var v := VerificationOf(eq, book, plan);
    RecordIdIff(plan, id);
    var r :| r in plan && r.id == id;
    CleanIff(eq, book, plan, id);
    if Issue(eq, book, r).Some? {
      FailingIff(eq, book, plan, id, Issue(eq, book, r).value);
      assert (id, Issue(eq, book, r).value) in v.failures;
    }
  }

  lemma ScopedIff(scope: Scope, failures: seq<(string, Code)>, f: Failure)
    ensures f in Scoped(scope, failures) <==> f.scope == scope && (f.id, f.code) in failures
  {
    if f.scope == scope && (f.id, f.code) in failures {
      var i :| 0 <= i < |failures| && failures[i] == (f.id, f.code);
      assert Scoped(scope, failures)[i] == f;
    }
  }

  /** Every record is verified in both workbooks or has a failure that names the workbook. */
  lemma RecordsAreAccounted(
    eq: Equivalence, plan: seq<Record>, input: Workbook, output: Workbook, values: Workbook, id: string)
    requires id in RecordIds(plan)
    ensures var v := AcceptanceOf(eq, plan, input, output, values).immutable;
            id in v.verified || exists f :: f in v.failures && f.id == id
  {
    hide VerificationOf, Checks, ScanOf;
    VerifiedOrFails(eq, input, plan, id);
    VerifiedOrFails(eq, output, plan, id);
    var i, o := VerificationOf(eq, input, plan), VerificationOf(eq, output, plan);
    var r := AcceptanceOf(eq, plan, input, output, values);
    if c :| (id, c) in i.failures {
      ScopedIff(Input, i.failures, Failure(Input, id, c));
      assert Failure(Input, id, c) in r.immutable.failures;
    } else if c :| (id, c) in o.failures {
      ScopedIff(Output, o.failures, Failure(Output, id, c));
      assert Failure(Output, id, c) in r.immutable.failures;
    }
  }

  lemma {:induction false} ChecksMatch(output: Workbook, values: Workbook, plan: seq<Record>)
    ensures CheckIds(Checks(output, values, plan)) == FormulaIds(plan)
    ensures forall c | c in Checks(output, values, plan) :: c.passed == (c.issues == [])
  {
    if plan != [] {
      var front, last := plan[..|plan| - 1], plan[|plan| - 1];
      ChecksMatch(output, values, front);
      var tail := if last.write.WriteFormula? then [CheckOf(output, values, last)] else [];
      assert Checks(output, values, plan) == Checks(output, values, front) + tail;
      assert CheckIds(Checks(output, values, plan)) == CheckIds(Checks(output, values, front)) + CheckIds(tail);
      hide CheckIssues;
    }
  }

  lemma FailuresOfPlan(
    eq: Equivalence, plan: seq<Record>, input: Workbook, output: Workbook, values: Workbook, f: Failure)
    requires f in AcceptanceOf(eq, plan, input, output, values).immutable.failures
    ensures f.id in RecordIds(plan) || f.id == INCOMPLETE
  {
    hide VerificationOf, Checks, ScanOf;
    var i, o := VerificationOf(eq, input, plan), VerificationOf(eq, output, plan);
    var r := AcceptanceOf(eq, plan, input, output, values);
    ScopedIff(Input, i.failures, f);
    ScopedIff(Output, o.failures, f);
    assert f in Scoped(Input, i.failures) || f in Scoped(Output, o.failures);
    if (f.id, f.code) in i.failures { FailureOrigin(eq, input, plan, (f.id, f.code)); }
    if (f.id, f.code) in o.failures { FailureOrigin(eq, output, plan, (f.id, f.code)); }
  }

  /** The validator finds nothing wrong with any acceptance the producer builds. */
  lemma ProducedIsValid(
    eq: Equivalence, plan: seq<Record>, input: Workbook, output: Workbook, values: Workbook)
    requires ValidPlan(plan)
    ensures Issues(AcceptanceOf(eq, plan, input, output, values), plan) == {}
  {
    ChecksMatch(output, values, plan);
    ProducedLists(eq, plan, input, output, values);
    ProducedPlan(eq, plan, input, output, values);
    hide VerificationOf, Checks, ScanOf, ListIssues, PlanIssues;
  }

  lemma ProducedLists(
    eq: Equivalence, plan: seq<Record>, input: Workbook, output: Workbook, values: Workbook)
    requires ValidPlan(plan)
    ensures ListIssues(AcceptanceOf(eq, plan, input, output, values)) == {}
  {
    var i, o := VerificationOf(eq, input, plan), VerificationOf(eq, output, plan);
    var r := AcceptanceOf(eq, plan, input, output, values);
    ChecksMatch(output, values, plan);
    BothDistinct(RecordIds(plan), i.verified, o.verified);
    UniqueDistinct(FailedIds(r.immutable.failures));
    forall f | f in r.immutable.failures ensures f.id != "" {
      FailuresOfPlan(eq, plan, input, output, values, f);
      RecordIdIff(plan, f.id);
    }
    hide VerificationOf, Checks, ScanOf, Both, Unique;
  }

  lemma ProducedPlan(
    eq: Equivalence, plan: seq<Record>, input: Workbook, output: Workbook, values: Workbook)
    requires ValidPlan(plan)
    ensures PlanIssues(AcceptanceOf(eq, plan, input, output, values), plan) == {}
  {
    var r := AcceptanceOf(eq, plan, input, output, values);
    ChecksMatch(output, values, plan);
    hide VerificationOf, Checks, ScanOf, Unique;
    var ids := Members(RecordIds(plan));
    forall f | f in r.immutable.failures && f.id != INCOMPLETE ensures f.id in ids {
      FailuresOfPlan(eq, plan, input, output, values, f);
    }
    forall id | id in ids ensures id in Members(r.immutable.verified) + (FailedRecords(r.immutable.failures) * ids) {
      RecordsAreAccounted(eq, plan, input, output, values, id);
      RecordIdIff(plan, id);
    }
    assert FailedRecords(r.immutable.failures) <= ids;
    assert Members(r.immutable.verified) <= ids;
  }

  lemma UniqueEmpty<T(!new)>(s: seq<T>)
    ensures |Unique(s)| == 0 <==> s == []
  {
    if s != [] { assert s[0] in Unique(s); }
  }

  lemma VerificationCleanIff(eq: Equivalence, book: Workbook, plan: seq<Record>)
    ensures VerificationOf(eq, book, plan).failures == [] <==>
            (forall r | r in plan :: Issue(eq, book, r).None?) && InputsPopulated(book, plan)
  {
    InputsPopulatedIff(book, plan);
    hide Issue, InputsPopulated;
    var v := VerificationOf(eq, book, plan);
    if v.failures == [] {
      forall r | r in plan ensures Issue(eq, book, r).None? {
        if Issue(eq, book, r).Some? { FailingIff(eq, book, plan, r.id, Issue(eq, book, r).value); }
      }
    }
    if forall r | r in plan :: Issue(eq, book, r).None? {
      if Failing(eq, book, plan) != [] {
        var f := Failing(eq, book, plan)[0];
        assert (f.0, f.1) in Failing(eq, book, plan);
        FailingIff(eq, book, plan, f.0, f.1);
      }
    }
  }

  /**
   * Recalculation passes exactly when both workbooks hold every planned record, every reserved input is
   * filled in both, every planned formula calculates soundly, and no formula anywhere is missing or in error.
   */
  lemma PassedIff(
    eq: Equivalence, plan: seq<Record>, input: Workbook, output: Workbook, values: Workbook)
    ensures AcceptanceOf(eq, plan, input, output, values).passed <==>
            && (forall k | k in plan :: Issue(eq, input, k).None? && Issue(eq, output, k).None?)
            && InputsPopulated(input, plan) && InputsPopulated(output, plan)
            && (forall c | c in Checks(output, values, plan) :: c.issues == [])
            && ScanClean(output.all)
  {
    var i, o := VerificationOf(eq, input, plan), VerificationOf(eq, output, plan);
    var r := AcceptanceOf(eq, plan, input, output, values);
    VerificationCleanIff(eq, input, plan);
    VerificationCleanIff(eq, output, plan);
    ScanCleanIff(output.all);
    ChecksMatch(output, values, plan);
    UniqueEmpty(FailedIds(r.immutable.failures));
    hide VerificationOf, Checks, ScanOf, Unique, Issue, InputsPopulated, Both;
    assert r.immutable.failures == [] <==> i.failures == [] && o.failures == [];
    assert |FailedIds(r.immutable.failures)| == |r.immutable.failures|;
  }

  /** Any payload that the validator finds nothing wrong with and that passed covers its whole plan. */
  lemma ValidPassCoversPlan(p: Payload, plan: seq<Record>)
    requires Issues(p, plan) == {} && p.passed
    ensures p.immutable.failures == [] && Members(p.immutable.verified) == Members(RecordIds(plan))
    ensures CheckIds(p.checks) == FormulaIds(plan) && forall c | c in p.checks :: c.passed && c.issues == []
    ensures p.scan.errors == 0 && p.scan.missing == 0
  {
    NoIssueFound(p, plan);
    UniqueEmpty(FailedIds(p.immutable.failures));
    hide Issues, Unique;
    assert p.immutable.failures == [] by { assert |FailedIds(p.immutable.failures)| == 0; }
    assert FailedRecords(p.immutable.failures) == {};
  }

  /** What it means that the validator found nothing. */
  lemma NoIssueFound(p: Payload, plan: seq<Record>)
    requires Issues(p, plan) == {}
    ensures NonNegative(p.summary) && p.passed == (FailureCount(p.summary) == 0)
    ensures p.summary.failures == |p.immutable.failed| && p.summary.formulaFailures == CountFailed(p.checks)
    ensures p.summary.scanErrors == p.scan.errors && p.summary.scanMissing == p.scan.missing
    ensures forall c | c in p.checks :: c.passed == (c.issues == [])
    ensures p.immutable.failed == Unique(FailedIds(p.immutable.failures))
    ensures Members(p.immutable.verified) + (FailedRecords(p.immutable.failures) * Members(RecordIds(plan))) ==
            Members(RecordIds(plan))
    ensures CheckIds(p.checks) == FormulaIds(plan)
  {
    assert forall x: AcceptanceIssue :: x !in Issues(p, plan);
    assert NegativeCount !in CountIssues(p) && StatusMismatch !in CountIssues(p)
      && FailureCountMismatch !in CountIssues(p)
      && FormulaFailureCount !in CountIssues(p) && ScanCounts !in CountIssues(p);
    assert CheckInconsistent !in ListIssues(p) && FailedMismatch !in ListIssues(p);
    assert Unaccounted !in PlanIssues(p, plan) && FormulasMismatch !in PlanIssues(p, plan);
  }
}
