/**
 * The traversal both engines share: rows in order, numbered from `first`,
 * and within a row the schema's columns in order. The per-field check is a
 * parameter; each engine supplies its own.
 */
module Sweep {
  import opened Schema
  import opened Seqs
  import opened Findings

  /** A per-field check: the issues of one column's value. */
  type FieldCheck = (Column, string) --> seq<Issue>

  /** The check can be applied to every value of every column of `cols`. */
  ghost predicate Admits(f: FieldCheck, cols: seq<Column>)
  {
    forall c, v :: c in cols ==> f.requires(c, v)
  }

  /** The findings of row `i`: each column's issues, in schema order. */
  function RowFindings(f: FieldCheck, cols: seq<Column>, row: Row, i: nat): seq<Finding>
    requires Admits(f, cols)
  {
    if cols == [] then []
    else Tag(i, cols[0].name, f(cols[0], Cell(row, cols[0].name))) + RowFindings(f, cols[1..], row, i)
  }

  /** The findings of `rows`, numbered from `first`, in row order. */
  function TableFindings(f: FieldCheck, cols: seq<Column>, rows: seq<Row>, first: nat): seq<Finding>
    requires Admits(f, cols)
  {
    if rows == [] then []
    else RowFindings(f, cols, rows[0], first) + TableFindings(f, cols, rows[1..], first + 1)
  }

  /** A row's findings for `a + b` are those for the columns of `a`, then those for `b`. */
  lemma {:induction false} RowAppend(f: FieldCheck, a: seq<Column>, b: seq<Column>, row: Row, i: nat)
    requires Admits(f, a) && Admits(f, b)
    ensures Admits(f, a + b)
      && RowFindings(f, a + b, row, i) == RowFindings(f, a, row, i) + RowFindings(f, b, row, i)
  {
    AdmitsJoin(f, a, b);
    if a == [] {
      assert a + b == b;
    } else {
      ConsAppend(a, b);
      var head := Tag(i, a[0].name, f(a[0], Cell(row, a[0].name)));
      AdmitsTail(f, a);
      RowAppend(f, a[1..], b, row, i);
      assert RowFindings(f, a + b, row, i) == head + RowFindings(f, a[1..] + b, row, i);
      AppendAssoc(head, RowFindings(f, a[1..], row, i), RowFindings(f, b, row, i));
    }
  }

  /** A check that admits the columns of `a` and of `b` admits those of `a + b`. */
  lemma AdmitsJoin(f: FieldCheck, a: seq<Column>, b: seq<Column>)
    requires Admits(f, a) && Admits(f, b)
    ensures Admits(f, a + b)
  {
  }

  /** A check that admits the columns of `a` admits those of its tail. */
  lemma AdmitsTail(f: FieldCheck, a: seq<Column>)
    requires Admits(f, a) && a != []
    ensures Admits(f, a[1..])
  {
    assert forall c :: c in a[1..] ==> c in a;
  }

  /** A single column contributes its issues on the row's cell, each tagged with the row and column. */
  lemma RowOne(f: FieldCheck, c: Column, row: Row, i: nat)
    requires Admits(f, [c])
    ensures RowFindings(f, [c], row, i) == Tag(i, c.name, f(c, Cell(row, c.name)))
  {
    assert [c][1..] == [];
    AppendNil(Tag(i, c.name, f(c, Cell(row, c.name))));
  }

  /** The findings of rows `a + b` are those of `a`, then those of `b` numbered on from where `a` stopped. */
  lemma {:induction false} TableAppend(f: FieldCheck, cols: seq<Column>, a: seq<Row>, b: seq<Row>, first: nat)
    requires Admits(f, cols)
    ensures TableFindings(f, cols, a + b, first)
      == TableFindings(f, cols, a, first) + TableFindings(f, cols, b, first + |a|)
  {
    if a == [] {
      assert a + b == b;
    } else {
      ConsAppend(a, b);
      TableAppend(f, cols, a[1..], b, first + 1);
      AppendAssoc(RowFindings(f, cols, a[0], first), TableFindings(f, cols, a[1..], first + 1),
        TableFindings(f, cols, b, first + 1 + |a[1..]|));
    }
  }

  /** A single row contributes its row findings under its own number. */
  lemma TableOne(f: FieldCheck, cols: seq<Column>, row: Row, first: nat)
    requires Admits(f, cols)
    ensures TableFindings(f, cols, [row], first) == RowFindings(f, cols, row, first)
  {
    assert [row][1..] == [];
    AppendNil(RowFindings(f, cols, row, first));
  }

  /** A name of the schema's tail is a name of the schema. */
  lemma TailNames(cols: seq<Column>, name: string)
    requires cols != [] && name in Names(cols[1..])
    ensures name in Names(cols)
  {
    var j :| 0 <= j < |cols| - 1 && Names(cols[1..])[j] == name;
    assert Names(cols)[j + 1] == name;
  }

  /** Every finding of row `i` is about row `i` and a schema column. */
  lemma {:induction false} RowShape(f: FieldCheck, cols: seq<Column>, row: Row, i: nat)
    requires Admits(f, cols)
    ensures forall k :: 0 <= k < |RowFindings(f, cols, row, i)| ==>
      var x := RowFindings(f, cols, row, i)[k];
      x.AtRow? && x.row == i && x.field in Names(cols)
  {
    if cols != [] {
      var head := Tag(i, cols[0].name, f(cols[0], Cell(row, cols[0].name)));
      var rest := RowFindings(f, cols[1..], row, i);
      TagShape(i, cols[0].name, f(cols[0], Cell(row, cols[0].name)));
      RowShape(f, cols[1..], row, i);
      assert Names(cols)[0] == cols[0].name;
      var r: seq<Finding> := head + rest;
      forall k | 0 <= k < |r|
        ensures r[k].AtRow? && r[k].row == i && r[k].field in Names(cols)
      {
        if k >= |head| {
          var x := rest[k - |head|];
          assert r[k] == x;
          assert x.AtRow? && x.row == i && x.field in Names(cols[1..]);
          TailNames(cols, x.field);
        } else {
          assert r[k] == head[k];
        }
      }
    }
  }

  /** Every finding of rows numbered from `first` is about one of those rows and a schema column. */
  lemma {:induction false} TableShape(f: FieldCheck, cols: seq<Column>, rows: seq<Row>, first: nat)
    requires Admits(f, cols)
    ensures forall k :: 0 <= k < |TableFindings(f, cols, rows, first)| ==>
      var x := TableFindings(f, cols, rows, first)[k];
      x.AtRow? && first <= x.row < first + |rows| && x.field in Names(cols)
  {
    if rows != [] {
      var head := RowFindings(f, cols, rows[0], first);
      var rest := TableFindings(f, cols, rows[1..], first + 1);
      RowShape(f, cols, rows[0], first);
      TableShape(f, cols, rows[1..], first + 1);
      var r: seq<Finding> := head + rest;
      assert TableFindings(f, cols, rows, first) == r;
      forall k | 0 <= k < |r|
        ensures r[k].AtRow? && first <= r[k].row < first + |rows| && r[k].field in Names(cols)
      {
        if k < |head| {
          assert r[k] == head[k];
        } else {
          assert r[k] == rest[k - |head|];
        }
      }
    }
  }

  /** Along the findings of a table, row numbers never decrease. */
  lemma {:induction false} TableAscends(f: FieldCheck, cols: seq<Column>, rows: seq<Row>, first: nat)
    requires Admits(f, cols)
    ensures RowsAscend(TableFindings(f, cols, rows, first))
  {
    if rows != [] {
      var head := RowFindings(f, cols, rows[0], first);
      var rest := TableFindings(f, cols, rows[1..], first + 1);
      RowShape(f, cols, rows[0], first);
      TableShape(f, cols, rows[1..], first + 1);
      TableAscends(f, cols, rows[1..], first + 1);
      var r: seq<Finding> := head + rest;
      assert TableFindings(f, cols, rows, first) == r;
      forall j, k | 0 <= j < k < |r|
        ensures RowOf(r[j]) <= RowOf(r[k])
      {
        if k < |head| {
          assert r[j] == head[j] && r[k] == head[k];
        } else if j >= |head| {
          assert r[j] == rest[j - |head|] && r[k] == rest[k - |head|];
        } else {
          assert r[j] == head[j] && r[k] == rest[k - |head|];
        }
      }
    }
  }

  /** Selecting from a row splits into its first column and the rest. */
  lemma SelectRowStep(f: FieldCheck, cols: seq<Column>, row: Row, j: nat, i: nat, name: string)
    requires Admits(f, cols)
    requires cols != []
    ensures Select(RowFindings(f, cols, row, j), i, name)
      == Select(Tag(j, cols[0].name, f(cols[0], Cell(row, cols[0].name))), i, name) + Select(RowFindings(f, cols[1..], row, j), i, name)
  {
    SelectAppend(Tag(j, cols[0].name, f(cols[0], Cell(row, cols[0].name))), RowFindings(f, cols[1..], row, j), i, name);
  }

  /** The index of the first column called `name`; `|cols|` when there is none. */
  function Position(cols: seq<Column>, name: string): nat
  {
    if cols == [] then 0
    else if cols[0].name == name then 0
    else 1 + Position(cols[1..], name)
  }

  /** Along a row's findings, columns come in schema order. */
  predicate ColumnsAscend(cols: seq<Column>, r: seq<Finding>)
  {
    forall p, q :: 0 <= p < q < |r| ==> Position(cols, FieldOf(r[p])) <= Position(cols, FieldOf(r[q]))
  }

  /** Within one row, the findings of a column all come before those of any later column. */
  lemma {:induction false} RowColumnsAscend(f: FieldCheck, cols: seq<Column>, row: Row, i: nat)
    requires Admits(f, cols)
    requires DistinctNames(cols)
    ensures ColumnsAscend(cols, RowFindings(f, cols, row, i))
  {
    if cols != [] {
      var name := cols[0].name;
      var head := Tag(i, name, f(cols[0], Cell(row, name)));
      var rest := RowFindings(f, cols[1..], row, i);
      TagShape(i, name, f(cols[0], Cell(row, name)));
      RowShape(f, cols[1..], row, i);
      HeadNameUnique(cols);
      RowColumnsAscend(f, cols[1..], row, i);
      assert forall q :: 0 <= q < |rest| ==> FieldOf(rest[q]) in Names(cols[1..]);
      ColumnsAscendAppend(cols, head, rest);
      assert RowFindings(f, cols, row, i) == head + rest;
    }
  }

  /** Findings of the first column, then findings of later columns in order, keep schema order. */
  lemma ColumnsAscendAppend(cols: seq<Column>, head: seq<Finding>, rest: seq<Finding>)
    requires cols != []
    requires forall p :: 0 <= p < |head| ==> FieldOf(head[p]) == cols[0].name
    requires forall q :: 0 <= q < |rest| ==> FieldOf(rest[q]) in Names(cols[1..])
    requires cols[0].name !in Names(cols[1..])
    requires ColumnsAscend(cols[1..], rest)
    ensures ColumnsAscend(cols, head + rest)
  {
    var r := head + rest;
    forall q | |head| <= q < |r|
      ensures Position(cols, FieldOf(r[q])) == 1 + Position(cols[1..], FieldOf(rest[q - |head|]))
    {
      assert r[q] == rest[q - |head|];
    }
    forall p | 0 <= p < |head|
      ensures Position(cols, FieldOf(r[p])) == 0
    {
      assert r[p] == head[p];
    }
  }

  /** Among the findings of one row, columns come in schema order. */
  predicate RowMajor(cols: seq<Column>, r: seq<Finding>)
  {
    forall p, q :: 0 <= p < q < |r| && RowOf(r[p]) == RowOf(r[q]) ==>
      Position(cols, FieldOf(r[p])) <= Position(cols, FieldOf(r[q]))
  }

  /** Within each row of a table's findings, columns come in schema order. */
  lemma {:induction false} TableRowMajor(f: FieldCheck, cols: seq<Column>, rows: seq<Row>, first: nat)
    requires Admits(f, cols)
    requires DistinctNames(cols)
    ensures RowMajor(cols, TableFindings(f, cols, rows, first))
  {
    if rows != [] {
      var head := RowFindings(f, cols, rows[0], first);
      var rest := TableFindings(f, cols, rows[1..], first + 1);
      RowShape(f, cols, rows[0], first);
      TableShape(f, cols, rows[1..], first + 1);
      RowColumnsAscend(f, cols, rows[0], first);
      TableRowMajor(f, cols, rows[1..], first + 1);
      assert TableFindings(f, cols, rows, first) == head + rest;
      assert forall p :: 0 <= p < |head| ==> RowOf(head[p]) == first;
      assert forall q :: 0 <= q < |rest| ==> first < RowOf(rest[q]);
      RowMajorAppend(cols, head, rest, first);
    }
  }

  /** One row's findings, then findings of later rows only: row-major order is kept. */
  lemma RowMajorAppend(cols: seq<Column>, a: seq<Finding>, b: seq<Finding>, n: nat)
    requires ColumnsAscend(cols, a)
    requires RowMajor(cols, b)
    requires forall p :: 0 <= p < |a| ==> RowOf(a[p]) == n
    requires forall q :: 0 <= q < |b| ==> n < RowOf(b[q])
    ensures RowMajor(cols, a + b)
  {
    var r := a + b;
    forall p, q | 0 <= p < q < |r| && RowOf(r[p]) == RowOf(r[q])
      ensures Position(cols, FieldOf(r[p])) <= Position(cols, FieldOf(r[q]))
    {
      if q < |a| {
        assert r[p] == a[p] && r[q] == a[q];
      } else {
        assert r[q] == b[q - |a|];
        assert forall k :: 0 <= k < |a| ==> RowOf(r[k]) == n;
        assert r[p] == b[p - |a|];
      }
    }
  }

  /** A row's findings say nothing about any other row. */
  lemma {:induction false} RowElsewhere(f: FieldCheck, cols: seq<Column>, row: Row, j: nat, i: nat, name: string)
    requires Admits(f, cols)
    requires i != j
    ensures Select(RowFindings(f, cols, row, j), i, name) == []
  {
    if cols != [] {
      SelectRowStep(f, cols, row, j, i, name);
      SelectTagOther(j, cols[0].name, f(cols[0], Cell(row, cols[0].name)), i, name);
      RowElsewhere(f, cols[1..], row, j, i, name);
    }
  }

  /** A row's findings say nothing about a field outside the schema. */
  lemma {:induction false} RowOtherField(f: FieldCheck, cols: seq<Column>, row: Row, i: nat, name: string)
    requires Admits(f, cols)
    requires name !in Names(cols)
    ensures Select(RowFindings(f, cols, row, i), i, name) == []
  {
    if cols != [] {
      assert Names(cols)[0] == cols[0].name;
      forall x | x in Names(cols[1..])
        ensures x in Names(cols)
      {
        TailNames(cols, x);
      }
      SelectRowStep(f, cols, row, i, i, name);
      SelectTagOther(i, cols[0].name, f(cols[0], Cell(row, cols[0].name)), i, name);
      RowOtherField(f, cols[1..], row, i, name);
    }
  }

  /** The findings of rows numbered from `first` say nothing about an earlier row. */
  lemma {:induction false} TableAfter(f: FieldCheck, cols: seq<Column>, rows: seq<Row>, first: nat, i: nat, name: string)
    requires Admits(f, cols)
    requires i < first
    ensures Select(TableFindings(f, cols, rows, first), i, name) == []
  {
    if rows != [] {
      SelectTableStep(f, cols, rows, first, i, name);
      RowElsewhere(f, cols, rows[0], first, i, name);
      TableAfter(f, cols, rows[1..], first + 1, i, name);
    }
  }

  /** The first column's name does not recur when names are unique. */
  lemma HeadNameUnique(cols: seq<Column>)
    requires DistinctNames(cols) && cols != []
    ensures cols[0].name !in Names(cols[1..])
    ensures DistinctNames(cols[1..])
  {
    forall k | 0 <= k < |cols| - 1
      ensures Names(cols[1..])[k] != cols[0].name
    {
      assert Names(cols[1..])[k] == cols[k + 1].name;
    }
  }

  /** With unique names, the findings of row `i` about column `c` are exactly `c`'s issues. */
  lemma {:induction false} SelectRow(f: FieldCheck, cols: seq<Column>, row: Row, i: nat, c: Column)
    requires Admits(f, cols)
    requires DistinctNames(cols)
    requires c in cols
    ensures Select(RowFindings(f, cols, row, i), i, c.name) == f(c, Cell(row, c.name))
  {
    SelectRowStep(f, cols, row, i, i, c.name);
    HeadNameUnique(cols);
    if cols[0] == c {
      SelectTag(i, c.name, f(c, Cell(row, c.name)));
      RowOtherField(f, cols[1..], row, i, c.name);
      AppendNil(f(c, Cell(row, c.name)));
    } else {
      var j :| 0 <= j < |cols| && cols[j] == c;
      assert cols[1..][j - 1] == c;
      assert Names(cols[1..])[j - 1] == c.name;
      SelectTagOther(i, cols[0].name, f(cols[0], Cell(row, cols[0].name)), i, c.name);
      SelectRow(f, cols[1..], row, i, c);
      AppendNil(f(c, Cell(row, c.name)));
    }
  }

  /** Selecting from a table splits into its first row and the rest. */
  lemma SelectTableStep(f: FieldCheck, cols: seq<Column>, rows: seq<Row>, first: nat, i: nat, name: string)
    requires Admits(f, cols)
    requires rows != []
    ensures Select(TableFindings(f, cols, rows, first), i, name)
      == Select(RowFindings(f, cols, rows[0], first), i, name) + Select(TableFindings(f, cols, rows[1..], first + 1), i, name)
  {
    SelectAppend(RowFindings(f, cols, rows[0], first), TableFindings(f, cols, rows[1..], first + 1), i, name);
  }

  /** The findings a table holds about row `i` are those of that row's own findings. */
  lemma {:induction false} SelectTableRow(f: FieldCheck, cols: seq<Column>, rows: seq<Row>, first: nat, i: nat, name: string)
    requires Admits(f, cols)
    requires first <= i < first + |rows|
    ensures Select(TableFindings(f, cols, rows, first), i, name) == Select(RowFindings(f, cols, rows[i - first], i), i, name)
  {
    if i == first {
      SelectTableFirst(f, cols, rows, first, name);
    } else {
      SelectTableLater(f, cols, rows, first, i, name);
      SelectTableRow(f, cols, rows[1..], first + 1, i, name);
      assert rows[1..][i - (first + 1)] == rows[i - first];
    }
  }

  /** A table's findings about its first row are those of the first row. */
  lemma SelectTableFirst(f: FieldCheck, cols: seq<Column>, rows: seq<Row>, first: nat, name: string)
    requires Admits(f, cols)
    requires rows != []
    ensures Select(TableFindings(f, cols, rows, first), first, name) == Select(RowFindings(f, cols, rows[0], first), first, name)
  {
    SelectTableStep(f, cols, rows, first, first, name);
    TableAfter(f, cols, rows[1..], first + 1, first, name);
    AppendNil(Select(RowFindings(f, cols, rows[0], first), first, name));
  }

  /** A table's findings about a later row are those of the rows after the first. */
  lemma SelectTableLater(f: FieldCheck, cols: seq<Column>, rows: seq<Row>, first: nat, i: nat, name: string)
    requires Admits(f, cols)
    requires rows != [] && i != first
    ensures Select(TableFindings(f, cols, rows, first), i, name) == Select(TableFindings(f, cols, rows[1..], first + 1), i, name)
  {
    SelectTableStep(f, cols, rows, first, i, name);
    RowElsewhere(f, cols, rows[0], first, i, name);
    AppendNil(Select(TableFindings(f, cols, rows[1..], first + 1), i, name));
  }

  /** Rows numbered from 1: the findings about row `i`, column `c` are `c`'s issues on `rows[i - 1]`. */
  lemma SelectNumbered(f: FieldCheck, cols: seq<Column>, rows: seq<Row>, i: nat, c: Column)
    requires Admits(f, cols)
    requires DistinctNames(cols)
    requires c in cols
    requires 1 <= i <= |rows|
    ensures Select(TableFindings(f, cols, rows, 1), i, c.name) == f(c, Cell(rows[i - 1], c.name))
  {
    SelectTableRow(f, cols, rows, 1, i, c.name);
    SelectRow(f, cols, rows[i - 1], i, c);
    Chain(Select(TableFindings(f, cols, rows, 1), i, c.name), Select(RowFindings(f, cols, rows[i - 1], i), i, c.name), f(c, Cell(rows[i - 1], c.name)));
  }

  /** Two checks that agree on every value the table holds produce the same findings. */
  lemma {:induction false} TableCongruent(f: FieldCheck, g: FieldCheck, cols: seq<Column>, rows: seq<Row>, first: nat)
    requires Admits(f, cols) && Admits(g, cols)
    requires forall k, c | 0 <= k < |rows| && c in cols :: f(c, Cell(rows[k], c.name)) == g(c, Cell(rows[k], c.name))
    ensures TableFindings(f, cols, rows, first) == TableFindings(g, cols, rows, first)
  {
    if rows != [] {
      RowCongruent(f, g, cols, rows[0], first);
      assert forall k, c | 0 <= k < |rows[1..]| && c in cols :: f(c, Cell(rows[1..][k], c.name)) == g(c, Cell(rows[1..][k], c.name)) by {
        forall k, c | 0 <= k < |rows[1..]| && c in cols
          ensures f(c, Cell(rows[1..][k], c.name)) == g(c, Cell(rows[1..][k], c.name))
        {
          assert rows[1..][k] == rows[k + 1];
        }
      }
      TableCongruent(f, g, cols, rows[1..], first + 1);
    }
  }

  /** Two checks that agree on every value of a row produce the same findings for it. */
  lemma {:induction false} RowCongruent(f: FieldCheck, g: FieldCheck, cols: seq<Column>, row: Row, i: nat)
    requires Admits(f, cols) && Admits(g, cols)
    requires forall c | c in cols :: f(c, Cell(row, c.name)) == g(c, Cell(row, c.name))
    ensures RowFindings(f, cols, row, i) == RowFindings(g, cols, row, i)
  {
    if cols != [] {
      assert cols[0] in cols;
      RowCongruent(f, g, cols[1..], row, i);
    }
  }

  /** A table on which the check finds nothing in any cell yields no findings. */
  lemma {:induction false} TableQuiet(f: FieldCheck, cols: seq<Column>, rows: seq<Row>, first: nat)
    requires Admits(f, cols)
    requires forall k, c | 0 <= k < |rows| && c in cols :: f(c, Cell(rows[k], c.name)) == []
    ensures TableFindings(f, cols, rows, first) == []
  {
    if rows != [] {
      RowQuiet(f, cols, rows[0], first);
      forall k, c | 0 <= k < |rows[1..]| && c in cols
        ensures f(c, Cell(rows[1..][k], c.name)) == []
      {
        assert rows[1..][k] == rows[k + 1];
      }
      TableQuiet(f, cols, rows[1..], first + 1);
    }
  }

  /** A row on which the check finds nothing in any cell yields no findings. */
  lemma {:induction false} RowQuiet(f: FieldCheck, cols: seq<Column>, row: Row, i: nat)
    requires Admits(f, cols)
    requires forall c | c in cols :: f(c, Cell(row, c.name)) == []
    ensures RowFindings(f, cols, row, i) == []
  {
    if cols != [] {
      assert cols[0] in cols;
      RowQuiet(f, cols[1..], row, i);
    }
  }
}
