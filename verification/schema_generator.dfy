/**
 * Schema inference (utils/schema_generator.py): each sampled non-blank value
 * is classified, and every header gets the type most of its values have.
 */
module SchemaGenerator {
  import opened Wrappers
  import opened Text
  import opened Host
  import opened Schema
  import opened Seqs

  /** The type names `infer_type` can produce. */
  datatype Inferred = IntType | FloatType | EmailType | StringType

  /** The name written into the generated schema. */
  function InferredName(t: Inferred): string
  {
    match t
    case IntType => "int"
    case FloatType => "float"
    case EmailType => "email"
    case StringType => "string"
  }

  /** One generated schema entry: `{"name": ..., "type": ...}`. */
  datatype Entry = Entry(name: string, ty: Inferred)

  /** Why no schema is produced: no header, or a sampled row too short for a header. */
  datatype InferError = NoHeaders | ShortRow

  /**
   * `infer_type`: `int` when `int()` accepts the value, otherwise `float`
   * when `float()` does, otherwise `email` when it holds an `@`, otherwise
   * `string`.
   */
  function InferType(o: Oracles, v: string): (r: Inferred)
    ensures r == IntType <==> o.parsesInt(v)
    ensures r == FloatType ==> o.toFloat(v).Some?
    ensures r == EmailType ==> '@' in v && o.toFloat(v).None?
    ensures r == StringType ==> '@' !in v && o.toFloat(v).None?
  {
    if o.parsesInt(v) then IntType
    else if o.toFloat(v).Some? then FloatType
    else if '@' in v then EmailType
    else StringType
  }

  /** How often `t` occurs in `types` (`types.count(t)`). */
  function Count(types: seq<Inferred>, t: Inferred): nat
  {
    multiset(types)[t]
  }

  /** The first candidate whose count in `types` is not exceeded by any other candidate. */
  function Best(types: seq<Inferred>, cands: seq<Inferred>): (r: Inferred)
    requires cands != []
    ensures r in cands
    ensures forall t :: t in cands ==> Count(types, t) <= Count(types, r)
  {
    if |cands| == 1 then cands[0]
    else
      var rest := Best(types, cands[1..]);
      assert forall t :: t in cands ==> t == cands[0] || t in cands[1..];
      if Count(types, cands[0]) >= Count(types, rest) then cands[0] else rest
  }

  /**
   * `max(set(types), key=types.count)`: a type that occurs in `types` and
   * that no type outnumbers. Python breaks ties by set iteration order; this
   * model takes the first maximal one.
   */
  function Majority(types: seq<Inferred>): (r: Inferred)
    requires types != []
    ensures r in types
    ensures forall t :: Count(types, t) <= Count(types, r)
  {
    var r := Best(types, types);
    assert forall t :: t !in types ==> Count(types, t) == 0;
    r
  }

  /** Every row has a value for field `h`. */
  predicate HasField(rows: seq<Row>, h: string)
  {
    forall k :: 0 <= k < |rows| ==> h in rows[k]
  }

  /**
   * The values of column `h` in `rows` whose `strip()` is non-empty, in row
   * order; by `StripEmptyIffBlank` these are the values that are not blank.
   */
  function NonBlank(rows: seq<Row>, h: string): (r: seq<string>)
    requires HasField(rows, h)
    ensures |r| <= |rows|
    ensures forall k :: 0 <= k < |r| ==> !IsBlank(r[k])
  {
    if rows == [] then []
    else
      var v := rows[0][h];
      (if !IsBlank(v) then [v] else []) + NonBlank(rows[1..], h)
  }

  /** No value survives the blank filter exactly when every value of the column is blank. */
  lemma {:induction false} NonBlankEmpty(rows: seq<Row>, h: string)
    requires HasField(rows, h)
    ensures NonBlank(rows, h) == [] <==> forall k :: 0 <= k < |rows| ==> IsBlank(rows[k][h])
  {
    if rows != [] {
      NonBlankEmpty(rows[1..], h);
      assert forall k :: 1 <= k < |rows| ==> rows[k] == rows[1..][k - 1];
    }
  }

  /** The filter keeps the values of `a`, then those of `b`: row order and repeats are kept. */
  lemma {:induction false} NonBlankAppend(a: seq<Row>, b: seq<Row>, h: string)
    requires HasField(a, h) && HasField(b, h)
    ensures HasField(a + b, h)
    ensures NonBlank(a + b, h) == NonBlank(a, h) + NonBlank(b, h)
  {
    assert forall k :: 0 <= k < |a| ==> (a + b)[k] == a[k];
    assert forall k :: |a| <= k < |a + b| ==> (a + b)[k] == b[k - |a|];
    if a != [] {
      NonBlankAppend(a[1..], b, h);
      assert (a + b)[1..] == a[1..] + b;
      var v := a[0][h];
      var head: seq<string> := if !IsBlank(v) then [v] else [];
      assert NonBlank(a + b, h) == head + (NonBlank(a[1..], h) + NonBlank(b, h));
      AppendAssoc(head, NonBlank(a[1..], h), NonBlank(b, h));
    } else {
      assert a + b == b;
    }
  }

  /** One row keeps its value exactly when `strip()` leaves something of it. */
  lemma NonBlankOne(row: Row, h: string)
    requires h in row
    ensures NonBlank([row], h) == if Strip(row[h]) != "" then [row[h]] else []
  {
    StripEmptyIffBlank(row[h]);
    assert [row][1..] == [];
  }

  /** The inferred type of each value, in order. */
  function Types(o: Oracles, values: seq<string>): (r: seq<Inferred>)
    ensures |r| == |values|
    ensures forall k :: 0 <= k < |r| ==> r[k] == InferType(o, values[k])
  {
    if values == [] then [] else [InferType(o, values[0])] + Types(o, values[1..])
  }

  /** The column type: `string` when every sampled value is blank, else the majority type. */
  function ColumnType(o: Oracles, rows: seq<Row>, h: string): (r: Inferred)
    requires HasField(rows, h)
    ensures NonBlank(rows, h) == [] ==> r == StringType
    ensures NonBlank(rows, h) != [] ==>
      var types := Types(o, NonBlank(rows, h));
      r in types && forall t :: Count(types, t) <= Count(types, r)
  {
    var values := NonBlank(rows, h);
    if values == [] then StringType else Majority(Types(o, values))
  }

  /** How many rows `zip(range(n), reader)` takes from a reader of `len` rows. */
  function SampleCount(n: int, len: nat): (k: nat)
    ensures k <= len
    ensures n <= 0 ==> k == 0
    ensures 0 <= n <= len ==> k == n
    ensures n >= len ==> k == len
  {
    if n <= 0 then 0 else if n < len then n else len
  }

  /** Every sampled row has a value for every header (the reader filled no field with `None`). */
  predicate Complete(rows: seq<Row>, headers: seq<string>)
  {
    forall h :: h in headers ==> HasField(rows, h)
  }

  /** One entry per header, in header order. */
  function Entries(o: Oracles, headers: seq<string>, sample: seq<Row>): (r: seq<Entry>)
    requires Complete(sample, headers)
    ensures |r| == |headers|
    ensures forall k :: 0 <= k < |r| ==> r[k] == Entry(headers[k], ColumnType(o, sample, headers[k]))
  {
    if headers == [] then []
    else
      assert headers[0] in headers;
      [Entry(headers[0], ColumnType(o, sample, headers[0]))] + Entries(o, headers[1..], sample)
  }

  /**
   * `infer_schema`: no headers (absent or empty) is an error; otherwise the
   * first `sampleSize` rows are sampled and every header gets one entry, in
   * header order. A sampled row without a value for some header makes
   * `strip()` fail on `None`, which is reported as `ShortRow`.
   */
  function InferSchema(o: Oracles, header: Option<seq<string>>, rows: seq<Row>, sampleSize: int): (r: Result<seq<Entry>, InferError>)
    ensures r == Failure(NoHeaders) <==> header.None? || header.value == []
    ensures header.Some? && header.value != [] ==>
      (r.Success? <==> Complete(rows[..SampleCount(sampleSize, |rows|)], header.value))
    ensures r.Success? ==>
      && |r.value| == |header.value|
      && forall k :: 0 <= k < |r.value| ==> r.value[k].name == header.value[k]
  {
    match header
    case None => Failure(NoHeaders)
    case Some(headers) =>
      if headers == [] then Failure(NoHeaders)
      else
        var sample := rows[..SampleCount(sampleSize, |rows|)];
        if !Complete(sample, headers) then Failure(ShortRow)
        else Success(Entries(o, headers, sample))
  }

  /**
   * The generated type names as the validators read them: `int` and `float`
   * are checked types, while `email` and `string` are not among the names the
   * validators know, so a generated text column gets no empty-value check.
   */
  lemma GeneratedTypes(t: Inferred)
    ensures t == IntType ==> ClassifyType(InferredName(t)) == Int
    ensures t == FloatType ==> ClassifyType(InferredName(t)) == Float
    ensures t == EmailType || t == StringType <==> ClassifyType(InferredName(t)).Other?
  {
    assert "email" != "str" && "string" != "str" && "email" != "int" && "string" != "int" by {
      assert |"email"| != |"str"| && |"email"| != |"int"|;
      assert |"string"| != |"str"| && |"string"| != |"int"|;
    }
  }

  /** When one type outnumbers every other, it is the majority, whatever the tie-break. */
  lemma UniqueMajority(types: seq<Inferred>, t: Inferred)
    requires types != []
    requires forall u :: u != t ==> Count(types, u) < Count(types, t)
    ensures Majority(types) == t
  {
  }

  /**
   * The type chosen for each header: `string` when all of its sampled values
   * are blank; otherwise a type of one of its non-blank sampled values that
   * no other type outnumbers among them.
   */
  lemma ColumnVote(o: Oracles, headers: seq<string>, rows: seq<Row>, n: int, k: nat)
    requires InferSchema(o, Some(headers), rows, n).Success?
    requires k < |headers|
    ensures var sample := rows[..SampleCount(n, |rows|)];
      var ty := InferSchema(o, Some(headers), rows, n).value[k].ty;
      && HasField(sample, headers[k])
      && ((forall j :: 0 <= j < |sample| ==> IsBlank(sample[j][headers[k]])) ==> ty == StringType)
      && (NonBlank(sample, headers[k]) != [] ==>
            var types := Types(o, NonBlank(sample, headers[k]));
            ty in types && forall t :: Count(types, t) <= Count(types, ty))
  {
    var sample := rows[..SampleCount(n, |rows|)];
    assert headers[k] in headers;
    NonBlankEmpty(sample, headers[k]);
  }

  /** Rows after the first `n` have no influence on the inferred schema. */
  lemma SampleOnly(o: Oracles, header: Option<seq<string>>, rows: seq<Row>, more: seq<Row>, n: int)
    requires n <= |rows|
    ensures InferSchema(o, header, rows + more, n) == InferSchema(o, header, rows, n)
  {
    var k := SampleCount(n, |rows|);
    assert SampleCount(n, |rows + more|) == k;
    assert (rows + more)[..k] == rows[..k];
  }
}
