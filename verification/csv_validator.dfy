/**
 * The monolithic engine, `validate_csv` of utils/csv_validator.py: header
 * reconciliation, then every schema column of every row. An `int` value that
 * is not all digits is reported and every later check on that field,
 * the enum check included, is skipped.
 */
module CsvValidator {
  import opened Wrappers
  import opened Text
  import opened Host
  import opened Schema
  import opened Seqs
  import opened Findings
  import opened Rules
  import opened Header
  import opened Sweep

  /** Which checks fire on value `v` of column `c`. */
  function Judge(o: Oracles, c: Column, v: string): Verdict
  {
    var cons := c.constraints;
    var skipped := c.ty == Int && !IsDigits(v);
    var num := if IsNumeric(c.ty) && !skipped then o.toFloat(v) else None;
    Verdict(
      empty := c.ty == Str && IsBlank(v),
      notInt := skipped,
      belowMin := if num.Some? && cons.min.Some? && Below(num.value, cons.min.value) then cons.min else None,
      aboveMax := if num.Some? && cons.max.Some? && Above(num.value, cons.max.value) then cons.max else None,
      pattern := c.ty == Str && cons.regex.Some? && !o.reMatch(cons.regex.value, v),
      notInEnum := if !skipped && cons.allowed.Some? && v !in cons.allowed.value then cons.allowed else None)
  }

  /** The value fails the `int` type check: it is not a non-empty run of ASCII digits. */
  predicate SkipsRest(c: Column, v: string)
  {
    c.ty == Int && !IsDigits(v)
  }

  /** The empty-string issue: a `str` value with nothing but whitespace. */
  function EmptyIssues(c: Column, v: string): seq<Issue>
  {
    if c.ty == Str && Strip(v) == "" then [EmptyString] else []
  }

  /** The bound issues of a numeric column whose value `float()` accepts. */
  function CoercedBounds(o: Oracles, c: Column, v: string): seq<Issue>
  {
    if IsNumeric(c.ty) then
      match o.toFloat(v)
      case Some(x) => BoundIssues(c.constraints, x)
      case None => []
    else []
  }

  lemma EmptySlot(o: Oracles, c: Column, v: string)
    ensures EmptyIssues(c, v) == Slot(Judge(o, c, v), v, 0)
  {
    StripEmptyIffBlank(v);
    assert Judge(o, c, v).empty == (c.ty == Str && IsBlank(v));
    SlotEmpty(Judge(o, c, v), v);
  }

  lemma SkippedSlots(o: Oracles, c: Column, v: string)
    requires SkipsRest(c, v)
    ensures Slot(Judge(o, c, v), v, 1) == [NotInt(v)]
    ensures Slot(Judge(o, c, v), v, 2) == [] && Slot(Judge(o, c, v), v, 3) == []
    ensures Slot(Judge(o, c, v), v, 4) == [] && Slot(Judge(o, c, v), v, 5) == []
  {
  }

  lemma CheckedSlots(o: Oracles, c: Column, v: string)
    requires !SkipsRest(c, v)
    ensures Slot(Judge(o, c, v), v, 1) == []
    ensures CoercedBounds(o, c, v) == Slot(Judge(o, c, v), v, 2) + Slot(Judge(o, c, v), v, 3)
    ensures PatternIssues(o, c.ty, c.constraints, v) == Slot(Judge(o, c, v), v, 4)
    ensures EnumIssues(c.constraints, v) == Slot(Judge(o, c, v), v, 5)
  {
  }

  /** A non-digit `int` value: the empty slot, then the type issue, and nothing else fires. */
  lemma SkippedReport(o: Oracles, c: Column, v: string)
    requires SkipsRest(c, v)
    ensures EmptyIssues(c, v) + [NotInt(v)] == Report(Judge(o, c, v), v)
  {
    var vd := Judge(o, c, v);
    ReportSlots(vd, v);
    EmptySlot(o, c, v);
    SkippedSlots(o, c, v);
    assert Slot(vd, v, 1) + (Slot(vd, v, 2) + (Slot(vd, v, 3) + (Slot(vd, v, 4) + Slot(vd, v, 5)))) == [NotInt(v)];
  }

  /** Any other value: the checks' own issue lists line up with the slots of ranks 0, 2-3, 4 and 5. */
  lemma CheckedReport(o: Oracles, c: Column, v: string)
    requires !SkipsRest(c, v)
    ensures EmptyIssues(c, v) + (CoercedBounds(o, c, v)
      + (PatternIssues(o, c.ty, c.constraints, v) + EnumIssues(c.constraints, v))) == Report(Judge(o, c, v), v)
  {
    var vd := Judge(o, c, v);
    ReportSlots(vd, v);
    EmptySlot(o, c, v);
    CheckedSlots(o, c, v);
    var s0, s1, s2, s3, s4, s5 := Slot(vd, v, 0), Slot(vd, v, 1), Slot(vd, v, 2), Slot(vd, v, 3), Slot(vd, v, 4), Slot(vd, v, 5);
    SkipEmpty(s0, s1, s2, s3, s4 + s5);
  }

  /**
   * The issues of one field: in check order, exactly those of the checks that
   * fire.
   */
  function CheckField(o: Oracles, c: Column, v: string): (r: seq<Issue>)
    ensures r == Report(Judge(o, c, v), v)
    ensures Ranked(r)
    ensures forall x :: x in r <==> Fires(Judge(o, c, v), v, x)
  {
    if SkipsRest(c, v) then
      SkippedReport(o, c, v);
      EmptyIssues(c, v) + [NotInt(v)]
    else
      CheckedReport(o, c, v);
      EmptyIssues(c, v) + (CoercedBounds(o, c, v)
        + (PatternIssues(o, c.ty, c.constraints, v) + EnumIssues(c.constraints, v)))
  }

  /**
   * When each issue is reported, in the terms of the source's conditions: the
   * empty-string check on a `str` value that strips to nothing, the `int`
   * check on a value that is not all digits, the bounds on a numeric value
   * `float()` accepts, the pattern on a `str` value `re.match` rejects, and
   * the enum on a value outside the list; a failed `int` check cancels the
   * bounds and the enum.
   */
  lemma CheckConditions(o: Oracles, c: Column, v: string)
    ensures EmptyString in CheckField(o, c, v) <==> c.ty == Str && Strip(v) == ""
    ensures forall w :: NotInt(w) in CheckField(o, c, v) <==> w == v && c.ty == Int && !IsDigits(v)
    ensures forall m :: BelowMin(m) in CheckField(o, c, v) <==>
      && IsNumeric(c.ty) && !SkipsRest(c, v) && c.constraints.min == Some(m)
      && o.toFloat(v).Some? && Below(o.toFloat(v).value, m)
    ensures forall m :: AboveMax(m) in CheckField(o, c, v) <==>
      && IsNumeric(c.ty) && !SkipsRest(c, v) && c.constraints.max == Some(m)
      && o.toFloat(v).Some? && Above(o.toFloat(v).value, m)
    ensures PatternMismatch in CheckField(o, c, v) <==>
      c.ty == Str && c.constraints.regex.Some? && !o.reMatch(c.constraints.regex.value, v)
    ensures forall e :: NotInEnum(e) in CheckField(o, c, v) <==>
      !SkipsRest(c, v) && c.constraints.allowed == Some(e) && v !in e
  {
    FiresExactly(Judge(o, c, v), v, CheckField(o, c, v));
    StripEmptyIffBlank(v);
  }

  /** A non-digit `int` value yields its type issue alone. */
  lemma SkippedAlone(o: Oracles, c: Column, v: string)
    requires SkipsRest(c, v)
    ensures CheckField(o, c, v) == [NotInt(v)]
  {
    assert EmptyIssues(c, v) == [];
  }

  /** A column of an unknown type can only fail its enum. */
  lemma OtherOnlyEnum(o: Oracles, c: Column, v: string)
    requires c.ty.Other?
    ensures forall x :: x in CheckField(o, c, v) ==> x.NotInEnum?
  {
    var vd := Judge(o, c, v);
    assert !vd.empty && !vd.notInt && vd.belowMin.None? && vd.aboveMax.None? && !vd.pattern;
  }

  /**
   * Bounds are inclusive: a numeric value that coerces to `x` is below `m`
   * exactly when `m` is the minimum and `x < m`, above exactly when `m` is
   * the maximum and `x > m` (for an `int` column, once its digits pass).
   */
  lemma BoundsInclusive(o: Oracles, c: Column, v: string, x: real)
    requires IsNumeric(c.ty) && !SkipsRest(c, v)
    requires o.toFloat(v) == Some(Finite(x))
    ensures forall m :: BelowMin(m) in CheckField(o, c, v) <==> c.constraints.min == Some(m) && x < m
    ensures forall m :: AboveMax(m) in CheckField(o, c, v) <==> c.constraints.max == Some(m) && x > m
  {
    var vd := Judge(o, c, v);
    assert forall m :: Fires(vd, v, BelowMin(m)) <==> c.constraints.min == Some(m) && x < m;
    assert forall m :: Fires(vd, v, AboveMax(m)) <==> c.constraints.max == Some(m) && x > m;
  }

  /**
   * A `float` value that does not coerce gets no bound issue, yet its enum is
   * still checked.
   */
  lemma UncoercedFloatEnumChecked(o: Oracles, c: Column, v: string)
    requires c.ty == Float && o.toFloat(v).None?
    ensures forall x :: x in CheckField(o, c, v) ==> !x.BelowMin? && !x.AboveMax?
    ensures forall e :: NotInEnum(e) in CheckField(o, c, v) <==> c.constraints.allowed == Some(e) && v !in e
  {
    var vd := Judge(o, c, v);
    assert forall e :: Fires(vd, v, NotInEnum(e)) <==> c.constraints.allowed == Some(e) && v !in e;
  }

  /**
   * A blank `str` value is reported empty, and its enum check runs
   * independently: a blank value outside the enum gets both issues.
   */
  lemma BlankStrEnumChecked(o: Oracles, c: Column, v: string)
    requires c.ty == Str && IsBlank(v)
    ensures EmptyString in CheckField(o, c, v)
    ensures forall e :: NotInEnum(e) in CheckField(o, c, v) <==> c.constraints.allowed == Some(e) && v !in e
  {
    var vd := Judge(o, c, v);
    assert Fires(vd, v, EmptyString);
    assert forall e :: Fires(vd, v, NotInEnum(e)) <==> c.constraints.allowed == Some(e) && v !in e;
  }

  /** The per-field check the row sweep applies. */
  function Check(o: Oracles): (Column, string) -> seq<Issue>
  {
    (c, v) => CheckField(o, c, v)
  }

  lemma CheckAdmits(o: Oracles, cols: seq<Column>)
    ensures Admits(Check(o), cols)
  {
  }

  lemma CheckApply(o: Oracles, c: Column, v: string)
    ensures Check(o)(c, v) == CheckField(o, c, v)
  {
  }

  /**
   * The whole report: a schema without `columns` yields that single finding;
   * otherwise the header findings come first, then the findings of the data
   * rows, numbered from 1, each about a schema column, in row order. An
   * absent header ends the report after the header findings.
   */
  function ValidateCsv(o: Oracles, s: SchemaDoc, t: Table): (r: seq<Finding>)
    ensures s.columns.None? ==> r == [MissingColumns]
    ensures s.columns.Some? ==>
      var h := ValidateHeader(t.header, Names(s.columns.value));
      && |h| <= |r| && r[..|h|] == h
      && (t.header.None? ==> r == h)
      && (forall k :: |h| <= k < |r| ==>
            r[k].AtRow? && 1 <= r[k].row <= |t.rows| && r[k].field in Names(s.columns.value))
      && RowsAscend(r[|h|..])
  {
    match s.columns
    case None => [MissingColumns]
    case Some(cols) =>
      var h := ValidateHeader(t.header, Names(cols));
      if t.header.None? then h
      else
        CheckAdmits(o, cols);
        var body := TableFindings(Check(o), cols, t.rows, 1);
        TableShape(Check(o), cols, t.rows, 1);
        TableAscends(Check(o), cols, t.rows, 1);
        assert (h + body)[..|h|] == h && (h + body)[|h|..] == body;
        h + body
  }

  /** After the header findings, the findings of each row come in schema column order. */
  lemma ColumnOrder(o: Oracles, s: SchemaDoc, t: Table)
    requires s.columns.Some? && DistinctNames(s.columns.value)
    ensures var h := ValidateHeader(t.header, Names(s.columns.value));
      RowMajor(s.columns.value, ValidateCsv(o, s, t)[|h|..])
  {
    var cols := s.columns.value;
    var h := ValidateHeader(t.header, Names(cols));
    if t.header.Some? {
      CheckAdmits(o, cols);
      var body := TableFindings(Check(o), cols, t.rows, 1);
      assert ValidateCsv(o, s, t)[|h|..] == body by {
        assert ValidateCsv(o, s, t) == h + body;
      }
      TableRowMajor(Check(o), cols, t.rows, 1);
    }
  }

  /**
   * With a header present, the issues reported against row `i` and schema
   * column `c` are exactly the ordered report of the checks that fire on
   * that row's value of `c` (an absent cell reads as the empty string).
   */
  lemma FieldFindings(o: Oracles, s: SchemaDoc, t: Table, i: nat, c: Column)
    requires s.columns.Some? && DistinctNames(s.columns.value) && c in s.columns.value
    requires t.header.Some?
    requires 1 <= i <= |t.rows|
    ensures var v := Cell(t.rows[i - 1], c.name);
      Select(ValidateCsv(o, s, t), i, c.name) == Report(Judge(o, c, v), v)
  {
    var cols := s.columns.value;
    var h := ValidateHeader(t.header, Names(cols));
    CheckAdmits(o, cols);
    var body := TableFindings(Check(o), cols, t.rows, 1);
    assert ValidateCsv(o, s, t) == h + body;
    var v := Cell(t.rows[i - 1], c.name);
    SelectAppend(h, body, i, c.name);
    SelectOther(h, i, c.name);
    SelectNumbered(Check(o), cols, t.rows, i, c);
    CheckApply(o, c, v);
    assert Select(h + body, i, c.name) == [] + CheckField(o, c, v);
  }

  /**
   * With a header present, the report is empty exactly when the header is the
   * schema's names in order and no check fires on any cell.
   */
  lemma CleanExactly(o: Oracles, s: SchemaDoc, t: Table)
    requires s.columns.Some? && DistinctNames(s.columns.value)
    requires t.header.Some?
    ensures ValidateCsv(o, s, t) == [] <==>
      && t.header == Some(Names(s.columns.value))
      && forall k, c | 0 <= k < |t.rows| && c in s.columns.value :: Judge(o, c, Cell(t.rows[k], c.name)) == Pass
  {
    var cols := s.columns.value;
    var h := ValidateHeader(t.header, Names(cols));
    CheckAdmits(o, cols);
    var body := TableFindings(Check(o), cols, t.rows, 1);
    assert ValidateCsv(o, s, t) == h + body;
    if ValidateCsv(o, s, t) == [] {
      forall k, c | 0 <= k < |t.rows| && c in cols
        ensures Judge(o, c, Cell(t.rows[k], c.name)) == Pass
      {
        var v := Cell(t.rows[k], c.name);
        FieldFindings(o, s, t, k + 1, c);
        ReportEmptyIffPass(Judge(o, c, v), v);
      }
    }
    if t.header == Some(Names(cols)) && forall k, c | 0 <= k < |t.rows| && c in cols :: Judge(o, c, Cell(t.rows[k], c.name)) == Pass {
      forall k, c | 0 <= k < |t.rows| && c in cols
        ensures Check(o)(c, Cell(t.rows[k], c.name)) == []
      {
        var v := Cell(t.rows[k], c.name);
        ReportEmptyIffPass(Judge(o, c, v), v);
      }
      TableQuiet(Check(o), cols, t.rows, 1);
    }
  }
}
