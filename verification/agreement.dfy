/**
 * The two engines side by side: they produce the same report whenever every
 * `int` cell is a digit string and every `float` cell coerces, and they part
 * ways on a signed `int` value and on a non-numeric `float` value.
 */
module Agreement {
  import opened Wrappers
  import opened Text
  import opened Host
  import opened Schema
  import opened Seqs
  import opened Findings
  import opened Rules
  import opened Sweep
  import Mono = CsvValidator
  import Split = CoreValidator

  /** A value of the type its column declares: digits for `int`, a coercible value for `float`. */
  predicate Conforms(o: Oracles, c: Column, v: string)
  {
    && (c.ty == Int ==> IsDigits(v))
    && (c.ty == Float ==> o.toFloat(v).Some?)
  }

  /** On a conforming value both engines reach the same verdict. */
  lemma JudgesAgree(o: Oracles, c: Column, v: string)
    requires DigitsCoerce(o)
    requires Conforms(o, c, v)
    ensures Mono.Judge(o, c, v) == Split.Judge(o, c.ty, c.constraints, v)
  {
    if c.ty == Int {
      assert o.toFloat(v).Some?;
    }
  }

  /** On a conforming value both engines report the same issues, in the same order. */
  lemma FieldsAgree(o: Oracles, c: Column, v: string)
    requires DigitsCoerce(o)
    requires Conforms(o, c, v)
    requires Split.Comparable(c.ty, c.constraints)
    ensures Mono.CheckField(o, c, v) == Split.FieldIssues(o, c, v)
  {
    JudgesAgree(o, c, v);
  }

  /**
   * The engines agree on a whole table whose cells all conform, provided
   * `min`/`max` sit only on numeric columns and a reader without a header
   * yields no rows.
   */
  lemma VariantsAgree(o: Oracles, s: SchemaDoc, t: Table)
    requires DigitsCoerce(o)
    requires s.columns.Some? ==> BoundsOnlyOnNumbers(s.columns.value)
    requires WellFormed(t)
    requires s.columns.Some? ==>
      forall k, c | 0 <= k < |t.rows| && c in s.columns.value :: Conforms(o, c, Cell(t.rows[k], c.name))
    ensures Mono.ValidateCsv(o, s, t) == Split.ValidateCsv(o, s, t)
  {
    if s.columns.Some? && t.header.Some? {
      var cols := s.columns.value;
      Mono.CheckAdmits(o, cols);
      Split.CheckAdmits(o, cols);
      forall k, c | 0 <= k < |t.rows| && c in cols
        ensures Mono.Check(o)(c, Cell(t.rows[k], c.name)) == Split.Check(o)(c, Cell(t.rows[k], c.name))
      {
        var v := Cell(t.rows[k], c.name);
        Mono.CheckApply(o, c, v);
        Split.CheckApply(o, c, v);
        FieldsAgree(o, c, v);
      }
      TableCongruent(Mono.Check(o), Split.Check(o), cols, t.rows, 1);
    }
  }

  /**
   * Any value failing the `int` check: the monolithic engine reports the
   * type issue alone, the split one follows it with every constraint issue.
   */
  lemma IntFailureDiverges(o: Oracles, c: Column, v: string)
    requires c.ty == Int && !IsDigits(v)
    ensures Mono.CheckField(o, c, v) == [NotInt(v)]
    ensures Split.FieldIssues(o, c, v) == [NotInt(v)] + Split.ParseConstraints(o, v, c.constraints, c.ty)
  {
    Mono.SkippedAlone(o, c, v);
    Split.ValidateFieldCases(v, c.ty);
  }

  /**
   * Any value `float()` rejects in a `float` column: the monolithic engine
   * still reports the enum issue, the split one reports nothing.
   */
  lemma FloatFailureDiverges(o: Oracles, c: Column, v: string)
    requires c.ty == Float && o.toFloat(v).None?
    ensures Mono.CheckField(o, c, v) == EnumIssues(c.constraints, v)
    ensures Split.FieldIssues(o, c, v) == []
  {
    var en := EnumIssues(c.constraints, v);
    assert Mono.EmptyIssues(c, v) == [] && Mono.CoercedBounds(o, c, v) == [];
    assert PatternIssues(o, c.ty, c.constraints, v) == [];
    AppendNil(en);
    assert Mono.CheckField(o, c, v) == [] + ([] + ([] + en));
    Split.ValidateFieldCases(v, c.ty);
    assert Split.ValidateField(v, c.ty) == [] && Split.ParseConstraints(o, v, c.constraints, c.ty) == [];
  }

  /**
   * A signed value in an `int` column with a lower bound: the monolithic
   * engine stops at the type issue, the split one goes on to the bound.
   */
  lemma SignedIntDiverges(o: Oracles)
    requires o.toFloat("-5") == Some(Finite(-5.0))
    ensures var c := Column("age", Int, Constraints(Some(0.0), None, None, None));
      && Mono.CheckField(o, c, "-5") == [NotInt("-5")]
      && Split.FieldIssues(o, c, "-5") == [NotInt("-5"), BelowMin(0.0)]
  {
    var c := Column("age", Int, Constraints(Some(0.0), None, None, None));
    assert "-5"[0] == '-';
    var vd := Split.Judge(o, c.ty, c.constraints, "-5");
    assert vd.notInt && vd.belowMin == Some(0.0);
    assert vd == Verdict(false, true, Some(0.0), None, false, None);
    ReportSlots(vd, "-5");
    assert Slot(vd, "-5", 0) == [] && Slot(vd, "-5", 1) == [NotInt("-5")] && Slot(vd, "-5", 2) == [BelowMin(0.0)];
    assert Slot(vd, "-5", 3) == [] && Slot(vd, "-5", 4) == [] && Slot(vd, "-5", 5) == [];
    assert Report(vd, "-5") == [NotInt("-5"), BelowMin(0.0)];
    assert Mono.SkipsRest(c, "-5");
  }

  /**
   * A non-numeric value in a `float` column with an enum: the monolithic
   * engine still checks the enum, the split one drops every constraint.
   */
  lemma UncoercedFloatDiverges(o: Oracles)
    requires o.toFloat("abc") == None
    ensures var c := Column("score", Float, Constraints(None, None, None, Some(["1", "2"])));
      && Mono.CheckField(o, c, "abc") == [NotInEnum(["1", "2"])]
      && Split.FieldIssues(o, c, "abc") == []
  {
    var c := Column("score", Float, Constraints(None, None, None, Some(["1", "2"])));
    var vd := Mono.Judge(o, c, "abc");
    assert vd == Verdict(false, false, None, None, false, Some(["1", "2"]));
    ReportSlots(vd, "abc");
    assert Slot(vd, "abc", 0) == [] && Slot(vd, "abc", 1) == [] && Slot(vd, "abc", 2) == [];
    assert Slot(vd, "abc", 3) == [] && Slot(vd, "abc", 4) == [] && Slot(vd, "abc", 5) == [NotInEnum(["1", "2"])];
    assert Report(vd, "abc") == [NotInEnum(["1", "2"])];
    assert Split.Dropped(o, c.ty, "abc");
    assert Split.FieldIssues(o, c, "abc")
      == Split.ValidateField("abc", Float) + Split.ParseConstraints(o, "abc", c.constraints, Float)
      == [] + [];
  }
}
