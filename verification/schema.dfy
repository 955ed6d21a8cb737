/**
 * The parsed schema document and the tokenised table the engine consumes.
 */
module Schema {
  import opened Wrappers

  /** A column's declared type; any string other than the three known ones is inert. */
  datatype ColType = Int | Float | Str | Other(name: string)

  /** Reads the `type` string of a schema entry. */
  function ClassifyType(s: string): (t: ColType)
    ensures t.Other? <==> s !in {"int", "float", "str"}
    ensures TypeName(t) == s
  {
    if s == "int" then Int
    else if s == "float" then Float
    else if s == "str" then Str
    else Other(s)
  }

  /** The `type` string a ColType is read from. */
  function TypeName(t: ColType): string
  {
    match t
    case Int => "int"
    case Float => "float"
    case Str => "str"
    case Other(n) => n
  }

  /** The types for which the engine attempts `float()` coercion. */
  predicate IsNumeric(t: ColType)
  {
    t == Int || t == Float
  }

  /**
   * The optional `constraints` bag: `min`, `max`, `regex`, `enum`.
   * An absent `constraints` key is the bag with every entry absent.
   */
  datatype Constraints = Constraints(
    min: Option<real>,
    max: Option<real>,
    regex: Option<string>,
    allowed: Option<seq<string>>)

  /** One entry of the schema's `columns` list. */
  datatype Column = Column(name: string, ty: ColType, constraints: Constraints)

  /** A parsed schema document; `columns` is `None` when the key is missing. */
  datatype SchemaDoc = SchemaDoc(columns: Option<seq<Column>>)

  /** A data row: field name to raw text. A field the reader filled with `None` is absent. */
  type Row = map<string, string>

  /** A tokenised CSV file: the header (`None` for an empty file) and the data rows. */
  datatype Table = Table(header: Option<seq<string>>, rows: seq<Row>)

  /** A reader yields no data rows when it found no header. */
  predicate WellFormed(t: Table)
  {
    t.header.None? ==> t.rows == []
  }

  /** The raw value of a field in a row; an absent or `None` field reads as "". */
  function Cell(row: Row, name: string): string
  {
    if name in row then row[name] else ""
  }

  /** The expected header: the column names in schema order. */
  function Names(cols: seq<Column>): (names: seq<string>)
    ensures |names| == |cols|
    ensures forall k :: 0 <= k < |cols| ==> names[k] == cols[k].name
  {
    if cols == [] then [] else [cols[0].name] + Names(cols[1..])
  }

  /** Column names are unique within the schema (expected, not enforced by the source). */
  predicate DistinctNames(cols: seq<Column>)
  {
    forall j, k :: 0 <= j < k < |cols| ==> cols[j].name != cols[k].name
  }

  /** `min`/`max` appear only on `int` and `float` columns. */
  ghost predicate BoundsOnlyOnNumbers(cols: seq<Column>)
  {
    forall c :: c in cols && !IsNumeric(c.ty) ==> c.constraints.min.None? && c.constraints.max.None?
  }
}
