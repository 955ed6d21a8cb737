/**
 * The split engine of utils/core/validator.py: `validate_field` (empty and
 * type checks), `parse_constraints` (bound, pattern and enum checks) and
 * `validate_header`, composed by `validate_csv`. A type failure suppresses
 * nothing; a failed `float()` coercion on a numeric column drops every
 * constraint check, the enum check included.
 */
module CoreValidator {
  import opened Wrappers
  import opened Text
  import opened Host
  import opened Schema
  import opened Seqs
  import opened Findings
  import opened Rules
  import opened Header
  import opened Sweep

  /** `min`/`max` may only be compared with a coerced number: elsewhere Python raises TypeError. */
  predicate Comparable(ty: ColType, cons: Constraints)
  {
    IsNumeric(ty) || (cons.min.None? && cons.max.None?)
  }

  /** The numeric column's value does not survive `float()`, so its constraints are not checked. */
  predicate Dropped(o: Oracles, ty: ColType, v: string)
  {
    IsNumeric(ty) && o.toFloat(v).None?
  }

  /** Which checks fire on value `v` of a column of type `ty` with constraints `cons`. */
  function Judge(o: Oracles, ty: ColType, cons: Constraints, v: string): Verdict
  {
    var num := if IsNumeric(ty) then o.toFloat(v) else None;
    Verdict(
      empty := ty == Str && IsBlank(v),
      notInt := ty == Int && !IsDigits(v),
      belowMin := if num.Some? && cons.min.Some? && Below(num.value, cons.min.value) then cons.min else None,
      aboveMax := if num.Some? && cons.max.Some? && Above(num.value, cons.max.value) then cons.max else None,
      pattern := ty == Str && cons.regex.Some? && !o.reMatch(cons.regex.value, v),
      notInEnum := if !Dropped(o, ty, v) && cons.allowed.Some? && v !in cons.allowed.value then cons.allowed else None)
  }

  /**
   * `validate_field`: the empty-string issue for a blank `str` value, then
   * the type issue for a non-digit `int` value.
   */
  function ValidateField(v: string, ty: ColType): (r: seq<Issue>)
    ensures forall x :: x in r ==> x == EmptyString || x == NotInt(v)
  {
    (if ty == Str && Strip(v) == "" then [EmptyString] else [])
    + (if ty == Int && !IsDigits(v) then [NotInt(v)] else [])
  }

  /**
   * At most one issue: the empty-string one exactly for a blank `str` value,
   * the type one exactly for a non-digit `int` value, never anything for
   * `float` or an unknown type.
   */
  lemma ValidateFieldCases(v: string, ty: ColType)
    ensures |ValidateField(v, ty)| <= 1
    ensures ValidateField(v, ty) == [EmptyString] <==> ty == Str && IsBlank(v)
    ensures ValidateField(v, ty) == [NotInt(v)] <==> ty == Int && !IsDigits(v)
    ensures ty == Float || ty.Other? ==> ValidateField(v, ty) == []
  {
    StripEmptyIffBlank(v);
    var r := ValidateField(v, ty);
    if ty == Str {
      var e: seq<Issue> := if Strip(v) == "" then [EmptyString] else [];
      assert r == e + [];
      AppendNil(e);
    } else if ty == Int {
      var n: seq<Issue> := if !IsDigits(v) then [NotInt(v)] else [];
      assert r == [] + n;
      AppendNil(n);
    } else {
      assert r == [] + [];
    }
  }

  /** The constraint part of a verdict: the same checks with the empty and type checks silenced. */
  function ConstraintPart(vd: Verdict): Verdict
  {
    vd.(empty := false, notInt := false)
  }

  lemma ConstraintSlots(vd: Verdict, v: string)
    ensures Slot(ConstraintPart(vd), v, 0) == [] && Slot(ConstraintPart(vd), v, 1) == []
    ensures Slot(ConstraintPart(vd), v, 2) == Slot(vd, v, 2) && Slot(ConstraintPart(vd), v, 3) == Slot(vd, v, 3)
    ensures Slot(ConstraintPart(vd), v, 4) == Slot(vd, v, 4) && Slot(ConstraintPart(vd), v, 5) == Slot(vd, v, 5)
  {
  }

  /** Slot by slot, the constraint checks line up with the verdict's ranks 2 to 5. */
  lemma ParsedSlots(o: Oracles, ty: ColType, cons: Constraints, v: string, x: PyFloat)
    requires IsNumeric(ty) && o.toFloat(v) == Some(x)
    ensures BoundIssues(cons, x) == Slot(Judge(o, ty, cons, v), v, 2) + Slot(Judge(o, ty, cons, v), v, 3)
    ensures PatternIssues(o, ty, cons, v) == Slot(Judge(o, ty, cons, v), v, 4)
    ensures EnumIssues(cons, v) == Slot(Judge(o, ty, cons, v), v, 5)
  {
  }

  lemma UncoercedSlots(o: Oracles, ty: ColType, cons: Constraints, v: string)
    requires !IsNumeric(ty) && Comparable(ty, cons)
    ensures Slot(Judge(o, ty, cons, v), v, 2) == [] && Slot(Judge(o, ty, cons, v), v, 3) == []
    ensures PatternIssues(o, ty, cons, v) == Slot(Judge(o, ty, cons, v), v, 4)
    ensures EnumIssues(cons, v) == Slot(Judge(o, ty, cons, v), v, 5)
  {
  }

  lemma DroppedSlots(o: Oracles, ty: ColType, cons: Constraints, v: string)
    requires Dropped(o, ty, v)
    ensures Slot(Judge(o, ty, cons, v), v, 2) == [] && Slot(Judge(o, ty, cons, v), v, 3) == []
    ensures Slot(Judge(o, ty, cons, v), v, 4) == [] && Slot(Judge(o, ty, cons, v), v, 5) == []
  {
  }

  /**
   * `parse_constraints`: the bound, pattern and enum issues, in that order;
   * nothing at all when a numeric column's value does not coerce.
   */
  function ParseConstraints(o: Oracles, v: string, cons: Constraints, ty: ColType): (r: seq<Issue>)
    requires Comparable(ty, cons)
    ensures Dropped(o, ty, v) ==> r == []
  {
    if IsNumeric(ty) then
      match o.toFloat(v)
      case None => []
      case Some(x) => BoundIssues(cons, x) + (PatternIssues(o, ty, cons, v) + EnumIssues(cons, v))
    else
      PatternIssues(o, ty, cons, v) + EnumIssues(cons, v)
  }

  /** The constraint part of a verdict reports the verdict's slots of ranks 2 to 5. */
  lemma ConstraintReport(vd: Verdict, v: string)
    ensures Report(ConstraintPart(vd), v) == Slot(vd, v, 2) + (Slot(vd, v, 3) + (Slot(vd, v, 4) + Slot(vd, v, 5)))
  {
    var cp := ConstraintPart(vd);
    ReportSlots(cp, v);
    ConstraintSlots(vd, v);
    var rest := Slot(vd, v, 2) + (Slot(vd, v, 3) + (Slot(vd, v, 4) + Slot(vd, v, 5)));
    assert Report(cp, v) == [] + ([] + rest);
    AppendNil(rest);
  }

  /** The checks of `parse_constraints` line up with the slots of ranks 2 to 5. */
  lemma ParseSlots(o: Oracles, v: string, cons: Constraints, ty: ColType)
    requires Comparable(ty, cons)
    ensures var vd := Judge(o, ty, cons, v);
      ParseConstraints(o, v, cons, ty) == Slot(vd, v, 2) + (Slot(vd, v, 3) + (Slot(vd, v, 4) + Slot(vd, v, 5)))
  {
    var vd := Judge(o, ty, cons, v);
    var s2, s3, s4, s5 := Slot(vd, v, 2), Slot(vd, v, 3), Slot(vd, v, 4), Slot(vd, v, 5);
    if !IsNumeric(ty) {
      UncoercedSlots(o, ty, cons, v);
      assert ParseConstraints(o, v, cons, ty) == s4 + s5;
      assert s2 + (s3 + (s4 + s5)) == [] + ([] + (s4 + s5));
    } else if o.toFloat(v).None? {
      DroppedSlots(o, ty, cons, v);
      assert ParseConstraints(o, v, cons, ty) == [];
      assert s2 + (s3 + (s4 + s5)) == [] + ([] + ([] + []));
    } else {
      var x := o.toFloat(v).value;
      ParsedSlots(o, ty, cons, v, x);
      assert ParseConstraints(o, v, cons, ty) == (s2 + s3) + (s4 + s5);
      AppendAssoc(s2, s3, s4 + s5);
    }
  }

  /** `parse_constraints` reports, in check order, exactly the constraint checks that fire. */
  lemma ParseReport(o: Oracles, v: string, cons: Constraints, ty: ColType)
    requires Comparable(ty, cons)
    ensures ParseConstraints(o, v, cons, ty) == Report(ConstraintPart(Judge(o, ty, cons, v)), v)
  {
    ConstraintReport(Judge(o, ty, cons, v), v);
    ParseSlots(o, v, cons, ty);
  }

  /** An issue is reported by `parse_constraints` exactly when its constraint check fires. */
  lemma ParseMembers(o: Oracles, v: string, cons: Constraints, ty: ColType)
    requires Comparable(ty, cons)
    ensures forall x :: x in ParseConstraints(o, v, cons, ty) <==> Fires(ConstraintPart(Judge(o, ty, cons, v)), v, x)
  {
    ParseReport(o, v, cons, ty);
  }

  /** No issue of `parse_constraints` is an empty-string or type issue. */
  lemma ParseRanks(o: Oracles, v: string, cons: Constraints, ty: ColType)
    requires Comparable(ty, cons)
    ensures forall k :: 0 <= k < |ParseConstraints(o, v, cons, ty)| ==> 2 <= Rank(ParseConstraints(o, v, cons, ty)[k])
  {
    var cp := ConstraintPart(Judge(o, ty, cons, v));
    var r := ParseConstraints(o, v, cons, ty);
    ParseReport(o, v, cons, ty);
    forall k | 0 <= k < |r|
      ensures 2 <= Rank(r[k])
    {
      assert r[k] in r;
      assert Fires(cp, v, r[k]);
    }
  }

  /**
   * The issues of one field, `validate_field` then `parse_constraints`: in
   * check order, exactly those of the checks that fire.
   */
  function FieldIssues(o: Oracles, c: Column, v: string): (r: seq<Issue>)
    requires Comparable(c.ty, c.constraints)
    ensures r == Report(Judge(o, c.ty, c.constraints, v), v)
    ensures Ranked(r)
    ensures forall x :: x in r <==> Fires(Judge(o, c.ty, c.constraints, v), v, x)
  {
    FieldReport(o, c.ty, c.constraints, v);
    ValidateField(v, c.ty) + ParseConstraints(o, v, c.constraints, c.ty)
  }

  /**
   * When each issue is reported, in the terms of the source's conditions:
   * the empty-string check on a `str` value that strips to nothing, the
   * `int` check on a value that is not all digits, the bounds on a numeric
   * value `float()` accepts, the pattern on a `str` value `re.match` rejects,
   * and the enum on a value outside the list unless `float()` rejected a
   * numeric value.
   */
  lemma CheckConditions(o: Oracles, c: Column, v: string)
    requires Comparable(c.ty, c.constraints)
    ensures EmptyString in FieldIssues(o, c, v) <==> c.ty == Str && Strip(v) == ""
    ensures forall w :: NotInt(w) in FieldIssues(o, c, v) <==> w == v && c.ty == Int && !IsDigits(v)
    ensures forall m :: BelowMin(m) in FieldIssues(o, c, v) <==>
      && IsNumeric(c.ty) && c.constraints.min == Some(m)
      && o.toFloat(v).Some? && Below(o.toFloat(v).value, m)
    ensures forall m :: AboveMax(m) in FieldIssues(o, c, v) <==>
      && IsNumeric(c.ty) && c.constraints.max == Some(m)
      && o.toFloat(v).Some? && Above(o.toFloat(v).value, m)
    ensures PatternMismatch in FieldIssues(o, c, v) <==>
      c.ty == Str && c.constraints.regex.Some? && !o.reMatch(c.constraints.regex.value, v)
    ensures forall e :: NotInEnum(e) in FieldIssues(o, c, v) <==>
      !Dropped(o, c.ty, v) && c.constraints.allowed == Some(e) && v !in e
  {
    FiresExactly(Judge(o, c.ty, c.constraints, v), v, FieldIssues(o, c, v));
    StripEmptyIffBlank(v);
  }

  lemma FieldReport(o: Oracles, ty: ColType, cons: Constraints, v: string)
    requires Comparable(ty, cons)
    ensures ValidateField(v, ty) + ParseConstraints(o, v, cons, ty) == Report(Judge(o, ty, cons, v), v)
  {
    var vd := Judge(o, ty, cons, v);
    var s0, s1 := Slot(vd, v, 0), Slot(vd, v, 1);
    var rest := Slot(vd, v, 2) + (Slot(vd, v, 3) + (Slot(vd, v, 4) + Slot(vd, v, 5)));
    ReportSlots(vd, v);
    ParseSlots(o, v, cons, ty);
    FieldSlots(vd, ty, v);
    AppendAssoc(s0, s1, rest);
  }

  /** `validate_field` fills the verdict's first two slots. */
  lemma FieldSlots(vd: Verdict, ty: ColType, v: string)
    requires vd.empty == (ty == Str && IsBlank(v))
    requires vd.notInt == (ty == Int && !IsDigits(v))
    ensures ValidateField(v, ty) == Slot(vd, v, 0) + Slot(vd, v, 1)
  {
    ValidateFieldCases(v, ty);
    SlotEmpty(vd, v);
    SlotNotInt(vd, v);
    if ty == Str {
      assert ValidateField(v, ty) == Slot(vd, v, 0) + [];
    } else {
      assert ValidateField(v, ty) == [] + Slot(vd, v, 1);
    }
  }

  /**
   * Bounds are inclusive in `parse_constraints`: a value that coerces to `x`
   * is below `m` exactly when `m` is the minimum and `x < m`, above exactly
   * when `m` is the maximum and `x > m`.
   */
  lemma BoundsInclusive(o: Oracles, v: string, cons: Constraints, ty: ColType, x: real)
    requires IsNumeric(ty) && o.toFloat(v) == Some(Finite(x))
    ensures forall m :: BelowMin(m) in ParseConstraints(o, v, cons, ty) <==> cons.min == Some(m) && x < m
    ensures forall m :: AboveMax(m) in ParseConstraints(o, v, cons, ty) <==> cons.max == Some(m) && x > m
  {
    var cp := ConstraintPart(Judge(o, ty, cons, v));
    ParseMembers(o, v, cons, ty);
    assert forall m :: Fires(cp, v, BelowMin(m)) <==> cons.min == Some(m) && x < m;
    assert forall m :: Fires(cp, v, AboveMax(m)) <==> cons.max == Some(m) && x > m;
  }

  /** Only `str` values are matched against a pattern; the enum check applies to every type. */
  lemma PatternOnlyOnStr(o: Oracles, v: string, cons: Constraints, ty: ColType)
    requires Comparable(ty, cons)
    ensures PatternMismatch in ParseConstraints(o, v, cons, ty)
      <==> ty == Str && cons.regex.Some? && !o.reMatch(cons.regex.value, v)
    ensures !Dropped(o, ty, v) ==>
      forall e :: NotInEnum(e) in ParseConstraints(o, v, cons, ty) <==> cons.allowed == Some(e) && v !in e
  {
    var cp := ConstraintPart(Judge(o, ty, cons, v));
    ParseMembers(o, v, cons, ty);
    assert Fires(cp, v, PatternMismatch) <==> ty == Str && cons.regex.Some? && !o.reMatch(cons.regex.value, v);
    assert !Dropped(o, ty, v) ==>
      forall e :: Fires(cp, v, NotInEnum(e)) <==> cons.allowed == Some(e) && v !in e;
  }

  /** The per-field check the row sweep applies: `validate_field` then `parse_constraints`. */
  function Check(o: Oracles): FieldCheck
  {
    (c: Column, v: string) requires Comparable(c.ty, c.constraints) => FieldIssues(o, c, v)
  }

  lemma CheckAdmits(o: Oracles, cols: seq<Column>)
    requires BoundsOnlyOnNumbers(cols)
    ensures Admits(Check(o), cols)
  {
  }

  lemma CheckApply(o: Oracles, c: Column, v: string)
    requires Comparable(c.ty, c.constraints)
    ensures Check(o).requires(c, v) && Check(o)(c, v) == FieldIssues(o, c, v)
  {
  }

  /**
   * `validate_csv`: a schema without `columns` yields that single finding;
   * otherwise the header findings, then the findings of every row, numbered
   * from 1, each about a schema column, in row order. A reader without a
   * header has no rows, so its report is the header findings alone.
   */
  function ValidateCsv(o: Oracles, s: SchemaDoc, t: Table): (r: seq<Finding>)
    requires s.columns.Some? ==> BoundsOnlyOnNumbers(s.columns.value)
    ensures s.columns.None? ==> r == [MissingColumns]
    ensures s.columns.Some? ==>
      var h := ValidateHeader(t.header, Names(s.columns.value));
      && |h| <= |r| && r[..|h|] == h
      && (t.header.None? && WellFormed(t) ==> r == h)
      && (forall k :: |h| <= k < |r| ==>
            r[k].AtRow? && 1 <= r[k].row <= |t.rows| && r[k].field in Names(s.columns.value))
      && RowsAscend(r[|h|..])
  {
    match s.columns
    case None => [MissingColumns]
    case Some(cols) =>
      var h := ValidateHeader(t.header, Names(cols));
      CheckAdmits(o, cols);
      var body := TableFindings(Check(o), cols, t.rows, 1);
      TableShape(Check(o), cols, t.rows, 1);
      TableAscends(Check(o), cols, t.rows, 1);
      assert (h + body)[..|h|] == h && (h + body)[|h|..] == body;
      assert t.rows == [] ==> body == [];
      h + body
  }

  /** After the header findings, the findings of each row come in schema column order. */
  lemma ColumnOrder(o: Oracles, s: SchemaDoc, t: Table)
    requires s.columns.Some? && BoundsOnlyOnNumbers(s.columns.value) && DistinctNames(s.columns.value)
    ensures var h := ValidateHeader(t.header, Names(s.columns.value));
      RowMajor(s.columns.value, ValidateCsv(o, s, t)[|h|..])
  {
    var cols := s.columns.value;
    var h := ValidateHeader(t.header, Names(cols));
    CheckAdmits(o, cols);
    var body := TableFindings(Check(o), cols, t.rows, 1);
    assert ValidateCsv(o, s, t)[|h|..] == body by {
      assert ValidateCsv(o, s, t) == h + body;
    }
    TableRowMajor(Check(o), cols, t.rows, 1);
  }

  /**
   * The issues reported against row `i` and schema column `c` are exactly
   * `validate_field` followed by `parse_constraints` on that row's value of
   * `c` (an absent cell reads as the empty string), whatever the header.
   */
  lemma FieldFindings(o: Oracles, s: SchemaDoc, t: Table, i: nat, c: Column)
    requires s.columns.Some? && BoundsOnlyOnNumbers(s.columns.value)
    requires DistinctNames(s.columns.value) && c in s.columns.value
    requires 1 <= i <= |t.rows|
    ensures var v := Cell(t.rows[i - 1], c.name);
      Select(ValidateCsv(o, s, t), i, c.name) == ValidateField(v, c.ty) + ParseConstraints(o, v, c.constraints, c.ty)
  {
    var cols := s.columns.value;
    var h := ValidateHeader(t.header, Names(cols));
    CheckAdmits(o, cols);
    var body := TableFindings(Check(o), cols, t.rows, 1);
    assert ValidateCsv(o, s, t) == h + body;
    var v := Cell(t.rows[i - 1], c.name);
    SelectAppend(h, body, i, c.name);
    SelectOther(h, i, c.name);
    SelectNumbered(Check(o), cols, t.rows, i, c);
    CheckApply(o, c, v);
    assert Select(h + body, i, c.name) == [] + FieldIssues(o, c, v);
  }
}
