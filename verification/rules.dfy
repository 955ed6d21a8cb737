/**
 * The checks that can fire on one field of one row, and the ordered issues
 * they stand for. Both engines decide a `Verdict` per field and report it in
 * the same fixed order: empty, type, min, max, pattern, enum.
 */
module Rules {
  import opened Wrappers
  import opened Host
  import opened Schema
  import opened Findings

  /**
   * Which checks fire on one field. A firing bound check carries the bound it
   * violated; a firing enum check carries the allowed list.
   */
  datatype Verdict = Verdict(
    empty: bool,
    notInt: bool,
    belowMin: Option<real>,
    aboveMax: Option<real>,
    pattern: bool,
    notInEnum: Option<seq<string>>)

  /** The verdict of a field no check objects to. */
  const Pass := Verdict(false, false, None, None, false, None)

  /** Issue `x` is the report of a check that fires in `vd` on value `v`. */
  predicate Fires(vd: Verdict, v: string, x: Issue)
  {
    match x
    case EmptyString => vd.empty
    case NotInt(w) => vd.notInt && w == v
    case BelowMin(m) => vd.belowMin == Some(m)
    case AboveMax(m) => vd.aboveMax == Some(m)
    case PatternMismatch => vd.pattern
    case NotInEnum(e) => vd.notInEnum == Some(e)
  }

  /**
   * A list holding exactly the issues of `vd` holds each check's issue iff
   * that check fires, with the value, bound or list it carries.
   */
  lemma FiresExactly(vd: Verdict, v: string, r: seq<Issue>)
    requires forall x :: x in r <==> Fires(vd, v, x)
    ensures EmptyString in r <==> vd.empty
    ensures forall w :: NotInt(w) in r <==> vd.notInt && w == v
    ensures forall m :: BelowMin(m) in r <==> vd.belowMin == Some(m)
    ensures forall m :: AboveMax(m) in r <==> vd.aboveMax == Some(m)
    ensures PatternMismatch in r <==> vd.pattern
    ensures forall e :: NotInEnum(e) in r <==> vd.notInEnum == Some(e)
  {
    assert Fires(vd, v, EmptyString) == vd.empty && Fires(vd, v, PatternMismatch) == vd.pattern;
  }

  /** The issue the check of rank `k` reports on value `v`, if it fires. */
  function Contribution(vd: Verdict, v: string, k: nat): (r: Option<Issue>)
    ensures r.Some? ==> Rank(r.value) == k && Fires(vd, v, r.value)
    ensures forall x :: Rank(x) == k && Fires(vd, v, x) ==> r == Some(x)
  {
    if k == 0 && vd.empty then Some(EmptyString)
    else if k == 1 && vd.notInt then Some(NotInt(v))
    else if k == 2 && vd.belowMin.Some? then Some(BelowMin(vd.belowMin.value))
    else if k == 3 && vd.aboveMax.Some? then Some(AboveMax(vd.aboveMax.value))
    else if k == 4 && vd.pattern then Some(PatternMismatch)
    else if k == 5 && vd.notInEnum.Some? then Some(NotInEnum(vd.notInEnum.value))
    else None
  }

  /** The issues of the checks of rank `k` and above, in rank order. */
  function ReportFrom(vd: Verdict, v: string, k: nat): (r: seq<Issue>)
    ensures Ranked(r)
    ensures forall j :: 0 <= j < |r| ==> k <= Rank(r[j]) && Fires(vd, v, r[j])
    ensures forall j :: k <= j < 6 && Contribution(vd, v, j).Some? ==> Contribution(vd, v, j).value in r
    decreases 6 - k
  {
    if k >= 6 then []
    else
      var rest := ReportFrom(vd, v, k + 1);
      match Contribution(vd, v, k)
      case Some(x) => [x] + rest
      case None => rest
  }

  /** The issues of the checks that fire on value `v`, one each, in check order. */
  function Report(vd: Verdict, v: string): (r: seq<Issue>)
    ensures Ranked(r)
    ensures forall x :: x in r <==> Fires(vd, v, x)
  {
    var r := ReportFrom(vd, v, 0);
    assert forall x :: Fires(vd, v, x) ==> x in r by {
      forall x | Fires(vd, v, x)
        ensures x in r
      {
        assert Contribution(vd, v, Rank(x)) == Some(x);
      }
    }
    r
  }

  /** A field has no issues exactly when no check fires on it. */
  lemma ReportEmptyIffPass(vd: Verdict, v: string)
    ensures Report(vd, v) == [] <==> vd == Pass
  {
    var r := Report(vd, v);
    if r == [] {
      assert !Fires(vd, v, EmptyString) && !Fires(vd, v, NotInt(v)) && !Fires(vd, v, PatternMismatch);
      assert !Fires(vd, v, BelowMin(vd.belowMin.GetOr(0.0)));
      assert !Fires(vd, v, AboveMax(vd.aboveMax.GetOr(0.0)));
      assert !Fires(vd, v, NotInEnum(vd.notInEnum.GetOr([])));
    } else {
      assert Fires(vd, v, r[0]);
    }
  }

  /** The issue of the check of rank `k` as a list: empty when that check does not fire. */
  function Slot(vd: Verdict, v: string, k: nat): (r: seq<Issue>)
    ensures |r| <= 1
  {
    match Contribution(vd, v, k)
    case Some(x) => [x]
    case None => []
  }

  /** The slot of rank 0 holds the empty-string issue exactly when that check fires. */
  lemma SlotEmpty(vd: Verdict, v: string)
    ensures Slot(vd, v, 0) == if vd.empty then [EmptyString] else []
  {
  }

  /** The slot of rank 1 holds the type issue exactly when that check fires. */
  lemma SlotNotInt(vd: Verdict, v: string)
    ensures Slot(vd, v, 1) == if vd.notInt then [NotInt(v)] else []
  {
  }

  /** Each rank below six adds its own slot in front of the later ones. */
  lemma ReportFromStep(vd: Verdict, v: string, k: nat)
    requires k < 6
    ensures ReportFrom(vd, v, k) == Slot(vd, v, k) + ReportFrom(vd, v, k + 1)
  {
  }

  /** The report is the six checks' slots laid end to end, in check order. */
  lemma ReportSlots(vd: Verdict, v: string)
    ensures Report(vd, v)
      == Slot(vd, v, 0) + (Slot(vd, v, 1) + (Slot(vd, v, 2) + (Slot(vd, v, 3) + (Slot(vd, v, 4) + Slot(vd, v, 5)))))
  {
    var s0, s1, s2, s3, s4, s5 := Slot(vd, v, 0), Slot(vd, v, 1), Slot(vd, v, 2), Slot(vd, v, 3), Slot(vd, v, 4), Slot(vd, v, 5);
    ReportFromStep(vd, v, 5);
    assert ReportFrom(vd, v, 6) == [];
    assert s5 + [] == s5;
    ReportFromStep(vd, v, 4);
    assert ReportFrom(vd, v, 4) == s4 + s5;
    ReportFromStep(vd, v, 3);
    assert ReportFrom(vd, v, 3) == s3 + (s4 + s5);
    ReportFromStep(vd, v, 2);
    assert ReportFrom(vd, v, 2) == s2 + (s3 + (s4 + s5));
    ReportFromStep(vd, v, 1);
    assert ReportFrom(vd, v, 1) == s1 + (s2 + (s3 + (s4 + s5)));
    ReportFromStep(vd, v, 0);
  }

  /** Lists with the same members are empty together. */
  lemma SameEmpty(a: seq<Issue>, b: seq<Issue>)
    requires forall x :: x in a <==> x in b
    ensures a == [] <==> b == []
  {
    if a != [] { assert a[0] in a; }
    if b != [] { assert b[0] in b; }
  }

  /** The head of a rank-ordered list has the least rank, and it is the only member of that rank. */
  lemma RankedHead(a: seq<Issue>, x: Issue)
    requires Ranked(a) && x in a
    ensures Rank(a[0]) <= Rank(x)
    ensures Rank(x) == Rank(a[0]) ==> x == a[0]
  {
    var k :| 0 <= k < |a| && a[k] == x;
    if k > 0 {
      assert Rank(a[0]) < Rank(a[k]);
    }
  }

  /** The tail of a rank-ordered list holds every member but the head. */
  lemma RankedTail(a: seq<Issue>, x: Issue)
    requires Ranked(a) && a != []
    ensures x in a[1..] <==> x in a && x != a[0]
  {
    if x in a[1..] {
      var k :| 0 <= k < |a[1..]| && a[1..][k] == x;
      assert Rank(a[0]) < Rank(a[k + 1]);
    }
    if x in a && x != a[0] {
      var k :| 0 <= k < |a| && a[k] == x;
      assert a[1..][k - 1] == x;
    }
  }

  /** Two rank-ordered issue lists with the same members are the same list. */
  lemma {:induction false} RankedUnique(a: seq<Issue>, b: seq<Issue>)
    requires Ranked(a) && Ranked(b)
    requires forall x :: x in a <==> x in b
    ensures a == b
  {
    SameEmpty(a, b);
    if a != [] {
      assert a[0] in b && b[0] in a;
      RankedHead(a, b[0]);
      RankedHead(b, a[0]);
      forall x
        ensures x in a[1..] <==> x in b[1..]
      {
        RankedTail(a, x);
        RankedTail(b, x);
      }
      RankedUnique(a[1..], b[1..]);
      assert a == [a[0]] + a[1..];
      assert b == [b[0]] + b[1..];
    }
  }

  /** Concatenating rank-ordered lists whose ranks do not overlap keeps rank order. */
  lemma RankedAppend(a: seq<Issue>, b: seq<Issue>, split: nat)
    requires Ranked(a) && Ranked(b)
    requires forall k :: 0 <= k < |a| ==> Rank(a[k]) < split
    requires forall k :: 0 <= k < |b| ==> split <= Rank(b[k])
    ensures Ranked(a + b)
  {
  }

  /** The bound issues of a coerced value: `below min` when under `min`, `above max` when over `max`. */
  function BoundIssues(cons: Constraints, x: PyFloat): (r: seq<Issue>)
  {
    (if cons.min.Some? && Below(x, cons.min.value) then [BelowMin(cons.min.value)] else [])
    + (if cons.max.Some? && Above(x, cons.max.value) then [AboveMax(cons.max.value)] else [])
  }

  /** The pattern issue: only `str` columns are matched against `regex`. */
  function PatternIssues(o: Oracles, ty: ColType, cons: Constraints, v: string): (r: seq<Issue>)
  {
    if ty == Str && cons.regex.Some? && !o.reMatch(cons.regex.value, v) then [PatternMismatch] else []
  }

  /** The enum issue: the raw value must be one of the listed literals. */
  function EnumIssues(cons: Constraints, v: string): (r: seq<Issue>)
  {
    if cons.allowed.Some? && v !in cons.allowed.value then [NotInEnum(cons.allowed.value)] else []
  }
}
