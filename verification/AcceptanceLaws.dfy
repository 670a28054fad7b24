/** What acceptance says of the cells of two workbooks, record by record. */
module AcceptanceLaws {
  import opened Results
  import opened Sorting
  import opened Acceptance

  // ---------------------------------------------------------------- records

  /** A number, or a boolean read as one or zero. */
  ghost predicate Amounts(v: Value, x: real)
  {
    v == Number(x) || (v == Boolean(true) && x == 1.0) || (v == Boolean(false) && x == 0.0)
  }

  ghost predicate Equal(a: Value, b: Value)
  {
    a == b || exists x :: Amounts(a, x) && Amounts(b, x)
  }

  ghost predicate Filled(cell: Cell)
  {
    cell.value.Number? || cell.value.Boolean? || (cell.value.Text? && |cell.value.s| > 0)
  }

  /** The first sheet of that name stands at a position, counting from one. */
  ghost predicate StandsAt(sheets: seq<string>, name: string, position: nat)
  {
    && 1 <= position <= |sheets| && sheets[position - 1] == name
    && forall j | 0 <= j < position - 1 :: sheets[j] != name
  }

  ghost predicate Styled(eq: Equivalence, cell: Cell, w: Write)
    requires w.ApplyStyle?
  {
    cell.locked == w.locked && (w.format == "source" || eq.formats(w.format, cell.format, w.logical))
  }

  ghost predicate Reachable(book: Workbook, record: Record)
  {
    record.sheet in book.sheets && (record.sheet, record.coordinate) in book.ranges
  }

  /** The only cell of a record's range. */
  ghost predicate OnlyCell(book: Workbook, record: Record, cell: Cell)
  {
    Reachable(book, record) && book.ranges[(record.sheet, record.coordinate)] == [cell]
  }

  /** A workbook keeps what a record wrote. */
  ghost predicate Kept(eq: Equivalence, book: Workbook, record: Record)
  {
    match record.write
    case EnsureSheet(position) => StandsAt(book.sheets, record.sheet, position)
    case ReserveInput => Reachable(book, record)
    case WriteValue(value) => exists cell :: OnlyCell(book, record, cell) && Equal(cell.value, value)
    case WriteFormula(formula, _, _) => exists cell :: OnlyCell(book, record, cell) && eq.formulas(formula, cell.value)
    case ApplyStyle(_, _, _) =>
      && Reachable(book, record)
      && forall cell | cell in book.ranges[(record.sheet, record.coordinate)] :: Styled(eq, cell, record.write)
    case Unsupported => false
  }

  lemma SameValueIff(a: Value, b: Value)
    ensures SameValue(a, b) <==> Equal(a, b)
  {
    if NumberOf(a).Some? { assert Amounts(a, NumberOf(a).value); }
    if NumberOf(b).Some? { assert Amounts(b, NumberOf(b).value); }
  }

  lemma {:induction false} IndexStands(sheets: seq<string>, name: string, position: nat)
    requires name in sheets
    ensures IndexIn(sheets, name) + 1 == position <==> StandsAt(sheets, name, position)
  {
    if sheets[0] != name {
      if position > 0 {
        IndexStands(sheets[1..], name, position - 1);
        if StandsAt(sheets[1..], name, position - 1) {
          forall j | 0 <= j < position - 1 ensures sheets[j] != name {
            if j > 0 { assert sheets[1..][j - 1] == sheets[j]; }
          }
        }
      }
    }
  }

  /** A record has no issue exactly when the workbook keeps it. */
  lemma KeptIff(eq: Equivalence, book: Workbook, record: Record)
    ensures Issue(eq, book, record).None? <==> Kept(eq, book, record)
  {
    hide SameValue, Equal;
    if record.sheet in book.sheets {
      match record.write
      case EnsureSheet(position) => IndexStands(book.sheets, record.sheet, position);
      case WriteValue(value) =>
        if Reachable(book, record) && |book.ranges[(record.sheet, record.coordinate)]| == 1 {
          var cells := book.ranges[(record.sheet, record.coordinate)];
          assert cells == [cells[0]];
          assert OnlyCell(book, record, cells[0]);
          SameValueIff(cells[0].value, value);
        }
      case WriteFormula(_, _, _) =>
        if Reachable(book, record) && |book.ranges[(record.sheet, record.coordinate)]| == 1 {
          var cells := book.ranges[(record.sheet, record.coordinate)];
          assert cells == [cells[0]];
          assert OnlyCell(book, record, cells[0]);
        }
      case ApplyStyle(_, _, _) =>
        if Reachable(book, record) {
          StyleFoundIff(eq, book.ranges[(record.sheet, record.coordinate)], record.write);
        }
      case _ =>
    }
  }

  /** The first cell without the style, and what is wrong with it. */
  ghost predicate FirstUnstyled(eq: Equivalence, cells: seq<Cell>, w: Write, i: nat, code: Code)
    requires w.ApplyStyle?
  {
    && i < |cells| && !Styled(eq, cells[i], w) && (forall j | 0 <= j < i :: Styled(eq, cells[j], w))
    && code == if cells[i].locked != w.locked then Protection else NumberFormat
  }

  lemma {:induction false} StyleCode(eq: Equivalence, cells: seq<Cell>, w: Write) returns (i: nat)
    requires w.ApplyStyle? && StyleIssue(eq, cells, w).Some?
    ensures FirstUnstyled(eq, cells, w, i, StyleIssue(eq, cells, w).value)
  {
    if !Styled(eq, cells[0], w) {
      i := 0;
    } else {
      var k := StyleCode(eq, cells[1..], w);
      i := k + 1;
      forall j | 0 <= j < i ensures Styled(eq, cells[j], w) {
        if j > 0 { assert cells[1..][j - 1] == cells[j]; }
      }
    }
  }

  /** What is reported of a record that is not kept. */
  ghost predicate Blamed(eq: Equivalence, book: Workbook, record: Record, code: Code)
  {
    if record.sheet !in book.sheets then code == SheetMissing
    else if record.write.EnsureSheet? then code == SheetPosition
    else if (record.sheet, record.coordinate) !in book.ranges then code == VerificationError
    else match record.write
      case WriteValue(_) => code == ValueMismatch
      case WriteFormula(_, _, _) => code == FormulaMismatch
      case ApplyStyle(_, _, _) =>
        exists i :: FirstUnstyled(eq, book.ranges[(record.sheet, record.coordinate)], record.write, i, code)
      case _ => code == UnsupportedWrite
  }

  lemma IssueBlames(eq: Equivalence, book: Workbook, record: Record)
    requires Issue(eq, book, record).Some?
    ensures Blamed(eq, book, record, Issue(eq, book, record).value)
  {
    if Reachable(book, record) && record.write.ApplyStyle? {
      var i := StyleCode(eq, book.ranges[(record.sheet, record.coordinate)], record.write);
    }
    hide FirstUnstyled, SameValue;
  }

  /** Every cell that a record reserves and that can be reached is filled. */
  ghost predicate ReservedFilled(book: Workbook, record: Record)
  {
    record.write.ReserveInput? && Reachable(book, record) ==>
      forall cell | cell in book.ranges[(record.sheet, record.coordinate)] :: Filled(cell)
  }

  lemma ReservedIff(book: Workbook, record: Record)
    ensures InputPopulated(book, record) <==> ReservedFilled(book, record)
  {
    var cells := InputCells(book, record);
    assert forall i | 0 <= i < |cells| :: Populated(cells[i]) <==> Filled(cells[i]);
  }

  // ---------------------------------------------------------------- formulas

  /** Two texts are the same but for lower-case letters of the first. */
  ghost predicate Spells(s: string, upper: string)
  {
    && |s| == |upper|
    && forall i | 0 <= i < |s| ::
         if 'a' <= s[i] <= 'z' then upper[i] as int == s[i] as int - 'a' as int + 'A' as int else upper[i] == s[i]
  }

  ghost predicate SpellsError(v: Value)
  {
    && v.Text?
    && (|| Spells(v.s, "#DIV/0!") || Spells(v.s, "#N/A") || Spells(v.s, "#NAME?") || Spells(v.s, "#NULL!")
        || Spells(v.s, "#NUM!") || Spells(v.s, "#REF!") || Spells(v.s, "#VALUE!"))
  }

  lemma UpperSpells(s: string, upper: string)
    ensures Upper(s) == upper <==> Spells(s, upper)
  {
    if Spells(s, upper) {
      assert forall i | 0 <= i < |s| :: Upper(s)[i] == upper[i];
    }
  }

  lemma ErrorIff(v: Value)
    ensures IsError(v) <==> SpellsError(v)
  {
    if v.Text? {
      UpperSpells(v.s, "#DIV/0!");
      UpperSpells(v.s, "#N/A");
      UpperSpells(v.s, "#NAME?");
      UpperSpells(v.s, "#NULL!");
      UpperSpells(v.s, "#NUM!");
      UpperSpells(v.s, "#REF!");
      UpperSpells(v.s, "#VALUE!");
      hide Upper, Spells;
    }
  }

  /** The value of the cell at a coordinate, blank when it cannot be reached. */
  ghost predicate Shows(book: Workbook, sheet: string, coordinate: string, v: Value)
  {
    if (sheet, coordinate) in book.ranges && |book.ranges[(sheet, coordinate)]| > 0
    then v == book.ranges[(sheet, coordinate)][0].value
    else v.Blank?
  }

  /** A formula that is still one, with a value of its type and sign that is no error. */
  ghost predicate Sound(w: Write, cell: Value, cached: Value)
    requires w.WriteFormula?
  {
    && cell.Text? && |cell.s| > 0 && cell.s[0] == '='
    && !cached.Blank? && !SpellsError(cached)
    && (w.output == Logical ==> cached.Boolean?) && (w.output == Numeric ==> cached.Number?)
    && (w.neverNegative && cached.Number? ==> cached.r >= 0.0)
  }

  /** Each issue of a formula check is raised for its own reason. */
  lemma ChecksTell(w: Write, cell: Value, cached: Value)
    requires w.WriteFormula?
    ensures var issues := CheckIssues(w, cell, cached);
            && (FormulaGone in issues <==> !(cell.Text? && |cell.s| > 0 && cell.s[0] == '='))
            && (CachedMissing in issues <==> cached.Blank?)
            && (FormulaError in issues <==> SpellsError(cached))
            && (TypeMismatch in issues <==>
                (w.output == Logical && !cached.Boolean?) || (w.output == Numeric && !cached.Number?))
            && (SignMismatch in issues <==> w.neverNegative && cached.Number? && cached.r < 0.0)
  {
    ErrorIff(cached);
    assert cached.Blank? ==> !SpellsError(cached);
    hide IsError, SpellsError;
  }

  lemma SoundIff(w: Write, cell: Value, cached: Value)
    requires w.WriteFormula?
    ensures CheckIssues(w, cell, cached) == [] <==> Sound(w, cell, cached)
  {
    ChecksTell(w, cell, cached);
    var issues := CheckIssues(w, cell, cached);
    hide CheckIssues, SpellsError;
    if issues != [] {
      assert issues[0] in issues;
    }
  }

  /** Every planned formula is sound where it was written. */
  ghost predicate FormulaSound(output: Workbook, values: Workbook, record: Record)
  {
    record.write.WriteFormula? ==>
      exists cell, cached ::
        && Shows(output, record.sheet, record.first, cell) && Shows(values, record.sheet, record.first, cached)
        && Sound(record.write, cell, cached)
  }

  lemma FormulaSoundIff(output: Workbook, values: Workbook, record: Record)
    requires record.write.WriteFormula?
    ensures CheckOf(output, values, record).issues == [] <==> FormulaSound(output, values, record)
  {
    var cell, cached := ValueIn(output, record.sheet, record.first), ValueIn(values, record.sheet, record.first);
    assert Shows(output, record.sheet, record.first, cell) && Shows(values, record.sheet, record.first, cached);
    SoundIff(record.write, cell, cached);
    hide CheckIssues, Sound;
  }

  lemma {:induction false} ChecksSoundIff(output: Workbook, values: Workbook, plan: seq<Record>)
    ensures (forall c | c in Checks(output, values, plan) :: c.issues == []) <==>
            forall record | record in plan :: FormulaSound(output, values, record)
  {
    if plan != [] {
      var front, last := plan[..|plan| - 1], plan[|plan| - 1];
      ChecksSoundIff(output, values, front);
      assert plan == front + [last];
      var tail := if last.write.WriteFormula? then [CheckOf(output, values, last)] else [];
      assert Checks(output, values, plan) == Checks(output, values, front) + tail;
      if last.write.WriteFormula? {
        FormulaSoundIff(output, values, last);
        assert tail[0] in tail;
      }
      hide Checks, CheckOf, Shows, Sound;
      assert forall c :: c in Checks(output, values, plan) <==> c in Checks(output, values, front) || c in tail;
      assert forall record :: record in plan <==> record in front || record == last;
    }
  }

  // ---------------------------------------------------------------- passing

  /** No formula of a workbook lacks a value or shows an error. */
  ghost predicate NothingBroken(all: seq<Scanned>)
  {
    forall i | 0 <= i < |all| && all[i].formula :: !all[i].cached.Blank? && !SpellsError(all[i].cached)
  }

  lemma NothingBrokenIff(all: seq<Scanned>)
    ensures ScanClean(all) <==> NothingBroken(all)
  {
    forall i | 0 <= i < |all| ensures IsError(all[i].cached) <==> SpellsError(all[i].cached) {
      ErrorIff(all[i].cached);
    }
    hide IsError, SpellsError;
  }

  /**
   * A recalculation passes exactly when both workbooks keep every record of the plan and have every
   * reserved cell filled, every planned formula is sound, and nothing else is broken.
   */
  lemma PassedMeans(
    eq: Equivalence, plan: seq<Record>, input: Workbook, output: Workbook, values: Workbook)
    ensures AcceptanceOf(eq, plan, input, output, values).passed <==>
            && (forall record | record in plan ::
                  && Kept(eq, input, record) && Kept(eq, output, record)
                  && ReservedFilled(input, record) && ReservedFilled(output, record)
                  && FormulaSound(output, values, record))
            && NothingBroken(output.all)
  {
    PassedIff(eq, plan, input, output, values);
    ChecksSoundIff(output, values, plan);
    NothingBrokenIff(output.all);
    hide AcceptanceOf, Issue, Kept, InputPopulated, ReservedFilled, FormulaSound, Checks, ScanClean, NothingBroken;
    forall record | record in plan
      ensures Issue(eq, input, record).None? <==> Kept(eq, input, record)
      ensures Issue(eq, output, record).None? <==> Kept(eq, output, record)
      ensures InputPopulated(input, record) <==> ReservedFilled(input, record)
      ensures InputPopulated(output, record) <==> ReservedFilled(output, record)
    {
      KeptIff(eq, input, record);
      KeptIff(eq, output, record);
      ReservedIff(input, record);
      ReservedIff(output, record);
    }
  }

  // ---------------------------------------------------------------- the validator

  ghost function FailedAt(checks: seq<Check>): set<nat>
  {
    set i: nat | i < |checks| && !checks[i].passed
  }

  lemma {:induction false} FailedCounted(checks: seq<Check>)
    ensures CountFailed(checks) == |FailedAt(checks)|
  {
    if checks == [] {
      assert FailedAt(checks) == {};
    } else {
      var n: nat := |checks| - 1;
      FailedCounted(checks[..n]);
      assert FailedAt(checks) == FailedAt(checks[..n]) + if checks[n].passed then {} else {n};
      assert n !in FailedAt(checks[..n]);
    }
  }

  lemma NegativeIff(s: Summary)
    ensures !NonNegative(s) <==>
            || s.records < 0 || s.failures < 0 || s.inputs < 0 || s.populated < 0 || s.formulas < 0
            || s.formulaFailures < 0 || s.scanned < 0 || s.scanErrors < 0 || s.scanMissing < 0
  {
  }

  lemma VerificationIssueIff(p: Payload, x: AcceptanceIssue)
    ensures var s, v := p.summary, p.immutable;
            x in VerificationIssues(p) <==>
            || (x == RecordCount && s.records != v.count) || (x == FailureCountMismatch && s.failures != |v.failed|)
            || (x == InputCount && s.inputs != v.inputs) || (x == PopulatedCount && s.populated != v.populated)
  {
  }

  lemma FormulaIssueIff(p: Payload, x: AcceptanceIssue)
    ensures var s := p.summary;
            x in FormulaIssues(p) <==>
            || (x == FormulaCount && s.formulas != |p.checks|)
            || (x == FormulaFailureCount && s.formulaFailures != CountFailed(p.checks))
            || (x == ScanCounts
                && (s.scanned != p.scan.formulas || s.scanErrors != p.scan.errors || s.scanMissing != p.scan.missing))
  {
    hide CountFailed;
  }

  lemma CountIssueIff(p: Payload, x: AcceptanceIssue)
    ensures var s := p.summary;
            x in CountIssues(p) <==>
            || (x == NegativeCount && !NonNegative(s))
            || (x == StatusMismatch && p.passed != (s.failures + s.formulaFailures + s.scanErrors + s.scanMissing == 0))
            || (x == RecordCount && s.records != p.immutable.count)
            || (x == FailureCountMismatch && s.failures != |p.immutable.failed|)
            || (x == InputCount && s.inputs != p.immutable.inputs)
            || (x == PopulatedCount && s.populated != p.immutable.populated)
            || (x == FormulaCount && s.formulas != |p.checks|)
            || (x == FormulaFailureCount && s.formulaFailures != CountFailed(p.checks))
            || (x == ScanCounts
                && (s.scanned != p.scan.formulas || s.scanErrors != p.scan.errors || s.scanMissing != p.scan.missing))
  {
    VerificationIssueIff(p, x);
    FormulaIssueIff(p, x);
    hide NonNegative, VerificationIssues, FormulaIssues, CountFailed;
  }

  lemma ListIssueIff(p: Payload, x: AcceptanceIssue)
    ensures var v := p.immutable;
            x in ListIssues(p) <==>
            || (x == CheckInconsistent && exists c | c in p.checks :: c.passed != (c.issues == []))
            || (x == VerifiedRepeats && !Distinct(v.verified)) || (x == VerifiedCount && v.count != |v.verified|)
            || (x == FailedRepeats && !Distinct(v.failed))
            || (x == FailureWithoutRecord && exists f | f in v.failures :: f.id == "")
            || (x == FailedMismatch && v.failed != Unique(FailedIds(v.failures)))
  {
    hide Distinct, Unique;
  }

  /** What the summary of a payload repeats of its parts. */
  lemma CountIssuesTell(p: Payload)
    ensures var s, v, found := p.summary, p.immutable, CountIssues(p);
            && (NegativeCount in found <==>
                || s.records < 0 || s.failures < 0 || s.inputs < 0 || s.populated < 0 || s.formulas < 0
                || s.formulaFailures < 0 || s.scanned < 0 || s.scanErrors < 0 || s.scanMissing < 0)
            && (StatusMismatch in found <==>
                p.passed != (s.failures + s.formulaFailures + s.scanErrors + s.scanMissing == 0))
            && (RecordCount in found <==> s.records != v.count)
            && (FailureCountMismatch in found <==> s.failures != |v.failed|)
            && (InputCount in found <==> s.inputs != v.inputs)
            && (PopulatedCount in found <==> s.populated != v.populated)
            && (FormulaCount in found <==> s.formulas != |p.checks|)
            && (FormulaFailureCount in found <==> s.formulaFailures != |FailedAt(p.checks)|)
            && (ScanCounts in found <==>
                s.scanned != p.scan.formulas || s.scanErrors != p.scan.errors || s.scanMissing != p.scan.missing)
  {
    FailedCounted(p.checks);
    hide CountFailed, FailedAt, CountIssues, NonNegative;
    NegativeIff(p.summary);
    CountIssueIff(p, NegativeCount);
    CountIssueIff(p, StatusMismatch);
    CountIssueIff(p, RecordCount);
    CountIssueIff(p, FailureCountMismatch);
    CountIssueIff(p, InputCount);
    CountIssueIff(p, PopulatedCount);
    CountIssueIff(p, FormulaCount);
    CountIssueIff(p, FormulaFailureCount);
    CountIssueIff(p, ScanCounts);
  }

  lemma ListIssuesTell(p: Payload)
    ensures var v, found := p.immutable, ListIssues(p);
            && (CheckInconsistent in found <==>
                exists i | 0 <= i < |p.checks| :: p.checks[i].passed != (|p.checks[i].issues| == 0))
            && (VerifiedRepeats in found <==> exists i, j | 0 <= i < j < |v.verified| :: v.verified[i] == v.verified[j])
            && (VerifiedCount in found <==> v.count != |v.verified|)
            && (FailedRepeats in found <==> exists i, j | 0 <= i < j < |v.failed| :: v.failed[i] == v.failed[j])
            && (FailureWithoutRecord in found <==> exists i | 0 <= i < |v.failures| :: |v.failures[i].id| == 0)
            && (FailedMismatch in found <==> v.failed != Unique(FailedIds(v.failures)))
  {
    hide Unique, ListIssues;
    ListIssueIff(p, CheckInconsistent);
    ListIssueIff(p, VerifiedRepeats);
    ListIssueIff(p, VerifiedCount);
    ListIssueIff(p, FailedRepeats);
    ListIssueIff(p, FailureWithoutRecord);
    ListIssueIff(p, FailedMismatch);
    var v := p.immutable;
    if i :| 0 <= i < |p.checks| && p.checks[i].passed != (|p.checks[i].issues| == 0) {
      assert p.checks[i] in p.checks;
    }
    if i :| 0 <= i < |v.failures| && |v.failures[i].id| == 0 {
      assert v.failures[i] in v.failures;
    }
  }

  /** What a payload says of the records of a plan. */
  lemma PlanIssuesTell(p: Payload, plan: seq<Record>)
    ensures var v, found := p.immutable, PlanIssues(p, plan);
            && (UnknownVerified in found <==>
                exists id :: id in v.verified && forall r | r in plan :: r.id != id)
            && (UnknownFailed in found <==>
                exists f ::
                  f in v.failures && f.id != "reserved_inputs_incomplete" && forall r | r in plan :: r.id != f.id)
            && (FormulasMismatch in found <==> CheckIds(p.checks) != FormulaIds(plan))
  {
    hide FormulaIds;
    var v, ids := p.immutable, Members(RecordIds(plan));
    forall id ensures id in ids <==> exists r | r in plan :: r.id == id {
      RecordIdIff(plan, id);
    }
    hide RecordIds;
    if id :| id in v.verified && id !in ids {
      assert id in Members(v.verified);
    }
    if f :| f in v.failures && f.id != "reserved_inputs_incomplete" && f.id !in ids {
      assert f.id in FailedRecords(v.failures);
    }
    if !(Members(v.verified) <= ids) {
      var id :| id in Members(v.verified) && id !in ids;
    }
    if !(FailedRecords(v.failures) <= ids) {
      var id :| id in FailedRecords(v.failures) && id !in ids;
    }
  }

  /** Every planned record must be verified or fail, by its identifier. */
  lemma UnaccountedIff(p: Payload, plan: seq<Record>)
    requires UnknownVerified !in PlanIssues(p, plan) && INCOMPLETE !in RecordIds(plan)
    ensures Unaccounted in PlanIssues(p, plan) <==>
            exists r ::
              r in plan && r.id !in p.immutable.verified && forall f | f in p.immutable.failures :: f.id != r.id
  {
    hide FormulaIds;
    var v, ids := p.immutable, Members(RecordIds(plan));
    forall id ensures id in ids <==> exists r | r in plan :: r.id == id {
      RecordIdIff(plan, id);
    }
    hide RecordIds;
    var told := Members(v.verified) + (FailedRecords(v.failures) * ids);
    assert forall r | r in plan :: r.id in ids;
    assert told <= ids;
    if told != ids {
      var id :| id in ids && id !in told;
      var r :| r in plan && r.id == id;
      assert forall f | f in v.failures && f.id == id :: f.id in FailedRecords(v.failures);
    }
  }

  /** The validator reports exactly what the three groups of checks find. */
  lemma IssuesAre(p: Payload, plan: seq<Record>, issue: AcceptanceIssue)
    ensures issue in Issues(p, plan) <==>
            issue in CountIssues(p) || issue in ListIssues(p) || issue in PlanIssues(p, plan)
  {
    hide CountIssues, ListIssues, PlanIssues;
  }

  /** The planned formulas are checked in plan order: `at` holds their positions. */
  ghost predicate FormulaPositions(plan: seq<Record>, at: seq<nat>)
  {
    && (forall j, k | 0 <= j < k < |at| :: at[j] < at[k])
    && forall i: nat :: i in at <==> i < |plan| && plan[i].write.WriteFormula?
  }

  ghost predicate PicksIds(plan: seq<Record>, at: seq<nat>, ids: seq<string>)
  {
    |at| == |ids| && forall k | 0 <= k < |at| :: at[k] < |plan| && ids[k] == plan[at[k]].id
  }

  lemma {:induction false} FormulaIdsAre(plan: seq<Record>) returns (at: seq<nat>)
    ensures FormulaPositions(plan, at) && PicksIds(plan, at, FormulaIds(plan))
  {
    if plan == [] {
      at := [];
    } else {
      var n: nat := |plan| - 1;
      var ids := FormulaIds(plan[..n]);
      assert FormulaIds(plan) == if plan[n].write.WriteFormula? then ids + [plan[n].id] else ids;
      hide FormulaIds, FormulaPositions, PicksIds;
      var front := FormulaIdsAre(plan[..n]);
      PositionsExtend(plan, front);
      PicksIdsExtend(plan, front, ids);
      at := if plan[n].write.WriteFormula? then front + [n] else front;
    }
  }

  lemma PicksIdsExtend(plan: seq<Record>, at: seq<nat>, ids: seq<string>)
    requires plan != [] && PicksIds(plan[..|plan| - 1], at, ids)
    ensures var n: nat := |plan| - 1; PicksIds(plan, at, ids) && PicksIds(plan, at + [n], ids + [plan[n].id])
  {
  }

  lemma PositionsExtend(plan: seq<Record>, at: seq<nat>)
    requires plan != [] && FormulaPositions(plan[..|plan| - 1], at)
    ensures var n: nat := |plan| - 1;
            FormulaPositions(plan, if plan[n].write.WriteFormula? then at + [n] else at)
  {
    var n: nat := |plan| - 1;
    forall k | 0 <= k < |at| ensures at[k] < n { assert at[k] in at; }
    var all := if plan[n].write.WriteFormula? then at + [n] else at;
    forall i: nat ensures i in all <==> i < |plan| && plan[i].write.WriteFormula? {
      assert i in at <==> i < n && plan[..n][i].write.WriteFormula?;
    }
  }

  // ---------------------------------------------------------------- what an acceptance says

  /** The identifiers of the records that both workbooks keep. */
  ghost predicate KeptInBoth(eq: Equivalence, plan: seq<Record>, input: Workbook, output: Workbook, id: string)
  {
    && (exists r | r in plan :: r.id == id && Kept(eq, input, r))
    && exists r | r in plan :: r.id == id && Kept(eq, output, r)
  }

  lemma CleanKept(eq: Equivalence, book: Workbook, plan: seq<Record>, id: string)
    ensures id in Clean(eq, book, plan) <==> exists r | r in plan :: r.id == id && Kept(eq, book, r)
  {
    CleanIff(eq, book, plan, id);
    hide Issue, Kept, Clean;
    forall r | r in plan ensures Issue(eq, book, r).None? <==> Kept(eq, book, r) {
      KeptIff(eq, book, r);
    }
  }

  /** An acceptance verifies the records that both workbooks keep. */
  lemma AcceptanceVerifies(
    eq: Equivalence, plan: seq<Record>, input: Workbook, output: Workbook, values: Workbook, id: string)
    ensures id in AcceptanceOf(eq, plan, input, output, values).immutable.verified
            <==> KeptInBoth(eq, plan, input, output, id)
  {
    CleanKept(eq, input, plan, id);
    CleanKept(eq, output, plan, id);
    KeptAreListed(eq, plan, input, id);
    hide Kept, Clean, Failing, AllInputs, CountPopulated, Checks, ScanOf, Unique, RecordIds;
  }

  /** It lists the failures of the input and then those of the output. */
  lemma AcceptanceLists(
    eq: Equivalence, plan: seq<Record>, input: Workbook, output: Workbook, values: Workbook)
    ensures var failures := AcceptanceOf(eq, plan, input, output, values).immutable.failures;
            var i, o := VerificationOf(eq, input, plan).failures, VerificationOf(eq, output, plan).failures;
            && |failures| == |i| + |o|
            && (forall k | 0 <= k < |i| :: failures[k] == Failure(Input, i[k].0, i[k].1))
            && forall k | 0 <= k < |o| :: failures[|i| + k] == Failure(Output, o[k].0, o[k].1)
  {
    FailuresJoin(eq, plan, input, output, values);
    hide *;
  }

  lemma FailuresJoin(eq: Equivalence, plan: seq<Record>, input: Workbook, output: Workbook, values: Workbook)
    ensures AcceptanceOf(eq, plan, input, output, values).immutable.failures
            == Scoped(Input, VerificationOf(eq, input, plan).failures)
               + Scoped(Output, VerificationOf(eq, output, plan).failures)
  {
    hide VerificationOf, Checks, ScanOf, Unique, RecordIds, FailedIds, FailureCount, CountFailed, Both, Scoped;
  }

  /** It repeats the counts of the input, the formula checks and the counts of the scan. */
  lemma AcceptanceSays(
    eq: Equivalence, plan: seq<Record>, input: Workbook, output: Workbook, values: Workbook)
    ensures var p := AcceptanceOf(eq, plan, input, output, values);
            && p.immutable.inputs == |AllInputs(input, plan)|
            && p.immutable.populated == CountPopulated(AllInputs(input, plan))
            && p.checks == Checks(output, values, plan) && p.scan == ScanOf(output.all)
  {
    hide Clean, Failing, AllInputs, CountPopulated, Checks, ScanOf, Unique, RecordIds, FailedIds, Scoped, CountFailed;
    hide FailureCount, Both;
  }

  lemma KeptAreListed(eq: Equivalence, plan: seq<Record>, book: Workbook, id: string)
    ensures (exists r | r in plan :: r.id == id && Kept(eq, book, r)) ==> id in RecordIds(plan)
  {
    RecordIdIff(plan, id);
    hide Kept, RecordIds;
  }
}
