/**
 * The engine's output. Schema and header findings stand alone; every other
 * finding is `Row <n>: Field '<f>' ...` followed by one of six issues. The
 * values a template prints (the header lists, the bound, the enum list) are
 * kept as parameters instead of their rendered text.
 */
module Findings {

  /** What is wrong with one field of one row. */
  datatype Issue =
    | EmptyString                      // is an empty string
    | NotInt(value: string)            // expected int but got '<value>'
    | BelowMin(min: real)              // below min <min>
    | AboveMax(max: real)              // above max <max>
    | PatternMismatch                  // does not match pattern
    | NotInEnum(allowed: seq<string>)  // not in allowed values: <allowed>

  datatype Finding =
    | MissingColumns                                              // Schema is missing 'columns' key.
    | HeaderAbsent                                                // Header mismatch: None vs expected headers
    | HeaderMismatch(actual: seq<string>, expected: seq<string>)  // Header mismatch: <actual> vs <expected>
    | MissingField(name: string)                                  // Missing field '<name>'
    | UnexpectedField(name: string)                               // Unexpected extra field '<name>'
    | AtRow(row: nat, field: string, issue: Issue)                // Row <row>: Field '<field>' <issue>

  /** The position of an issue's check in the order the checks of one field run. */
  function Rank(x: Issue): nat
  {
    match x
    case EmptyString => 0
    case NotInt(_) => 1
    case BelowMin(_) => 2
    case AboveMax(_) => 3
    case PatternMismatch => 4
    case NotInEnum(_) => 5
  }

  /** Strictly increasing rank: the check order is respected and no check reports twice. */
  predicate Ranked(xs: seq<Issue>)
  {
    forall j, k :: 0 <= j < k < |xs| ==> Rank(xs[j]) < Rank(xs[k])
  }

  /** The findings for issues `xs` on field `name` of row `i`. */
  function Tag(i: nat, name: string, xs: seq<Issue>): seq<Finding>
  {
    if xs == [] then [] else [AtRow(i, name, xs[0])] + Tag(i, name, xs[1..])
  }

  /** Tagging keeps the issues, their number and their order. */
  lemma {:induction false} TagShape(i: nat, name: string, xs: seq<Issue>)
    ensures |Tag(i, name, xs)| == |xs|
    ensures forall k :: 0 <= k < |xs| ==> Tag(i, name, xs)[k] == AtRow(i, name, xs[k])
  {
    if xs != [] {
      TagShape(i, name, xs[1..]);
      var t := Tag(i, name, xs);
      assert t == [AtRow(i, name, xs[0])] + Tag(i, name, xs[1..]);
      forall k | 1 <= k < |xs|
        ensures t[k] == AtRow(i, name, xs[k])
      {
        assert t[k] == Tag(i, name, xs[1..])[k - 1];
      }
    }
  }

  /** The row a finding is about; 0 for the schema and header findings. */
  function RowOf(f: Finding): nat
  {
    if f.AtRow? then f.row else 0
  }

  /** The field a finding is about; "" for a finding about no field of a row. */
  function FieldOf(f: Finding): string
  {
    if f.AtRow? then f.field else ""
  }

  /** Row numbers never decrease along `r`. */
  predicate RowsAscend(r: seq<Finding>)
  {
    forall j, k :: 0 <= j < k < |r| ==> RowOf(r[j]) <= RowOf(r[k])
  }

  /** The issues `r` reports on field `name` of row `i`, in their order in `r`. */
  function Select(r: seq<Finding>, i: nat, name: string): seq<Issue>
  {
    if r == [] then []
    else
      var head := if r[0].AtRow? && r[0].row == i && r[0].field == name then [r[0].issue] else [];
      head + Select(r[1..], i, name)
  }

  /** Selecting distributes over concatenation. */
  lemma {:induction false} SelectAppend(a: seq<Finding>, b: seq<Finding>, i: nat, name: string)
    ensures Select(a + b, i, name) == Select(a, i, name) + Select(b, i, name)
  {
    if a == [] {
      assert a + b == b;
    } else {
      assert (a + b)[1..] == a[1..] + b;
      SelectAppend(a[1..], b, i, name);
    }
  }

  /** Selecting from a list with one more finding in front. */
  lemma SelectCons(f: Finding, r: seq<Finding>, i: nat, name: string)
    ensures Select([f] + r, i, name)
      == (if f.AtRow? && f.row == i && f.field == name then [f.issue] else []) + Select(r, i, name)
  {
    assert ([f] + r)[0] == f;
    assert ([f] + r)[1..] == r;
  }

  /** Tagging and selecting the same field of the same row are inverse. */
  lemma {:induction false} SelectTag(i: nat, name: string, xs: seq<Issue>)
    ensures Select(Tag(i, name, xs), i, name) == xs
  {
    if xs != [] {
      assert Tag(i, name, xs) == [AtRow(i, name, xs[0])] + Tag(i, name, xs[1..]);
      SelectCons(AtRow(i, name, xs[0]), Tag(i, name, xs[1..]), i, name);
      SelectTag(i, name, xs[1..]);
      assert xs == [xs[0]] + xs[1..];
    }
  }

  /** Nothing is selected from the tagged issues of another row or field. */
  lemma {:induction false} SelectTagOther(j: nat, other: string, xs: seq<Issue>, i: nat, name: string)
    requires j != i || other != name
    ensures Select(Tag(j, other, xs), i, name) == []
  {
    if xs != [] {
      assert Tag(j, other, xs) == [AtRow(j, other, xs[0])] + Tag(j, other, xs[1..]);
      SelectCons(AtRow(j, other, xs[0]), Tag(j, other, xs[1..]), i, name);
      SelectTagOther(j, other, xs[1..], i, name);
    }
  }

  /** Nothing is selected from findings about other rows or fields. */
  lemma {:induction false} SelectOther(r: seq<Finding>, i: nat, name: string)
    requires forall k :: 0 <= k < |r| ==> !(r[k].AtRow? && r[k].row == i && r[k].field == name)
    ensures Select(r, i, name) == []
  {
    if r != [] {
      SelectOther(r[1..], i, name);
    }
  }
}
