# testforge CSV validation engine — a Dafny model

testforge checks a CSV file against a JSON schema. The schema is a list of
columns. Each column has a `name`, a `type` (`int`, `float`, `str`, or any
other string, which the engine treats as inert) and optional `constraints`
(`min`, `max`, `regex`, `enum`). The engine returns a list of error
strings. The order of that list is part of its contract:

1. the schema-level error;
2. the header findings;
3. for each data row, in file order, and for each schema column, in
   schema order, the checks on that cell in a fixed order: empty string,
   integer syntax, below `min`, above `max`, regex, enum.

The repository has two implementations of this engine:

- **Monolithic:** `utils/csv_validator.py`.
- **Split:** `utils/core/validator.py`, with `validate_field`,
  `parse_constraints` and `validate_header`.

They differ in which checks a failed type test suppresses. This project
models both, side by side. It also models two other pieces:

- the schema inference of `utils/schema_generator.py`;
- the Markdown report renderer of `utils/core/report.py`.

Layout, one module per concept:

| module | file | concept |
|---|---|---|
| `Wrappers`, `Seqs`, `Text` | wrappers.dfy, seqs.dfy, text.dfy | Option/Result types; small facts about concatenation; Python's `isspace` and `strip` over Unicode whitespace, and `isdigit` on ASCII digits |
| `Host` | host.dfy | `float()`, `int()` and `re.match` as an `Oracles` record of function values; IEEE comparisons with nan and the infinities |
| `Schema` | schema.dfy | the schema document and the tokenised table |
| `Findings` | findings.dfy | what the engine reports, as data (`Finding`, `Issue`); `Select` picks out the issues of one cell |
| `Rules` | rules.dfy | `Report(vd, v)`: the reference definition of one cell's issues, as the ranked list of the checks that fire |
| `Header` | header.dfy | `validate_header` |
| `Sweep` | sweep.dfy | the row × column traversal, generic over a per-cell check |
| `CsvValidator` | csv_validator.dfy | the monolithic engine |
| `CoreValidator` | core_validator.dfy | the split engine |
| `Agreement` | agreement.dfy | where the two engines agree, and where they do not |
| `SchemaGenerator` | schema_generator.dfy | `infer_type` and `infer_schema` |
| `Markdown` | markdown.dfy | `generate_markdown_report`, with a reader that inverts it |

Each engine's cell check is written the way the source computes it. It is
then proved equal to the reference definition `Rules.Report` of the
verdict the engine reaches, through the slot lemmas.

### Where the two engines differ

- **Monolithic engine, `int` failure.** It skips the rest of the cell's
  checks: bounds, regex and the enum check too
  (`utils/csv_validator.py:75`). The split engine suppresses nothing on an
  `int` failure. `Agreement.IntFailureDiverges` states both results.
- **Monolithic engine, uncoercible `float`.** The enum check still runs on
  an uncoercible `float` value. Only the bound checks are skipped
  (`utils/csv_validator.py:84-92`).
- **Split engine, failed coercion.** It drops every constraint check,
  enum included (`utils/core/validator.py:27-30`).
  `Agreement.FloatFailureDiverges` states both results for a `float`
  column.
- **Everywhere else they agree.** On a value of its column's declared
  type, both engines report the same issues (`Agreement.FieldsAgree`).

### Where both engines behave alike

- **Missing and extra lists.** They are list comprehensions, not set
  differences: order and duplicates are kept (`utils/csv_validator.py:50-51`,
  `utils/core/validator.py:60-61`).

## Model

| member | source | states |
|---|---|---|
| Schema.ClassifyType | utils/csv_validator.py:62 | the `type` string is read as int, float or str; every other string is an inert type; the string is recovered from the result |
| Schema.Names | utils/csv_validator.py:34 | the expected header has one name per schema column, the k-th being column k's name |
| Text.StripLeft | utils/csv_validator.py:69 | `lstrip` removes an all-whitespace prefix and leaves a suffix that is empty or starts with a non-space |
| Text.StripRight | utils/csv_validator.py:69 | `rstrip` removes an all-whitespace suffix and leaves a prefix that is empty or ends with a non-space |
| Text.Strip | utils/csv_validator.py:69 | `strip()` removes leading and trailing whitespace only: the result is a prefix of the `lstrip` result followed only by whitespace there, and neither end of it is whitespace |
| Text.StripEmptyIffBlank | utils/csv_validator.py:69 | `value.strip() == ""` exactly when every character is whitespace |
| Text.IsDigits | utils/csv_validator.py:73 | `isdigit()` holds only on a non-empty string of digits, so an empty value, a sign or surrounding whitespace fails the int check |
| Header.Without | utils/core/validator.py:60-61 | the comprehension keeps exactly the names of the first list that are not in the second |
| Header.WithoutAppend | utils/core/validator.py:60-61 | the comprehension keeps the order of its input: filtering distributes over concatenation |
| Header.WithoutCovered | utils/core/validator.py:60-61 | nothing is left when every name is in the excluded list |
| Header.MissingFields | utils/core/validator.py:63-64 | one "missing field" finding per name, in the given order |
| Header.UnexpectedFields | utils/core/validator.py:65-66 | one "unexpected extra field" finding per name, in the given order |
| Header.ValidateHeader | utils/core/validator.py:48-68 | header findings never name a row, and there are none exactly when the header equals the expected names |
| Header.AbsentHeaderShape | utils/core/validator.py:51-55 | with no header: the "None" mismatch line, then one missing-field line per expected name, in schema order |
| Header.MissingFieldsMembers | utils/core/validator.py:63-64 | a name has a missing-field line exactly when it is in the list, and only missing-field lines are produced |
| Header.UnexpectedFieldsMembers | utils/core/validator.py:65-66 | a name has an extra-field line exactly when it is in the list, and only extra-field lines are produced |
| Header.MismatchShape | utils/core/validator.py:57-66 | a differing header gives the mismatch line carrying both lists, then the missing names in schema order, then the extra names in header order |
| Header.MismatchMembers | utils/core/validator.py:57-66 | a name is reported missing exactly when expected and absent, and extra exactly when present and not expected |
| Header.MismatchOrder | utils/core/validator.py:63-66 | no missing-field line comes after an extra-field line |
| Header.ReorderOnlyMismatch | utils/core/validator.py:57-66 | a header holding the same names in another order gives the mismatch line alone |
| Findings.TagShape | utils/csv_validator.py:69-92 | every issue of a cell is reported in order, tagged with its row number and field name |
| Rules.Contribution | utils/csv_validator.py:69-92 | each position of the fixed check order contributes at most the one check of that rank, exactly when it fires |
| Rules.ReportFrom | utils/csv_validator.py:69-92 | the checks from a given rank onward appear in rank order; each one fires, and every one that fires appears |
| Rules.Report | utils/csv_validator.py:69-92 | a cell's issues are ranked (empty, int, min, max, regex, enum; none twice), and an issue is present exactly when its check fires |
| Rules.ReportEmptyIffPass | utils/csv_validator.py:69-92 | a cell has no issue exactly when no check fires |
| Rules.ReportSlots | utils/csv_validator.py:69-92 | a cell's issues are the six checks' slots concatenated in the fixed order |
| Rules.FiresExactly | utils/csv_validator.py:69-92 | a list holding exactly a verdict's issues holds each check's issue, carrying that value, bound or list, exactly when the check fires |
| Rules.RankedUnique | utils/csv_validator.py:69-92 | two ranked issue lists with the same members are equal, so the fixed order determines the list |
| Rules.RankedAppend | utils/core/validator.py:92-93 | concatenating ranked lists whose ranks are separated keeps them ranked |
| CsvValidator.CheckField | utils/csv_validator.py:65-92 | a cell's issues are the reference report of the monolithic verdict: ranked, and holding exactly the checks that fire |
| CsvValidator.CheckConditions | utils/csv_validator.py:69-92 | each issue is reported under the source's own condition: empty for a `str` value that strips to "", int for a value that is not all digits, min/max for a numeric value `float()` accepts and that lies outside the bound, pattern for a `str` value `re.match` rejects, enum for a value outside the list; a failed int check cancels the bounds and the enum |
| CsvValidator.SkippedAlone | utils/csv_validator.py:72-75 | an `int` cell that is not a digit string reports the int error alone; every later check is skipped |
| CsvValidator.OtherOnlyEnum | utils/csv_validator.py:69-92 | a column of an unknown type can only fail its enum check |
| CsvValidator.BoundsInclusive | utils/csv_validator.py:77-85 | a coerced value is below `min` exactly when strictly less, and above `max` exactly when strictly greater, so the bounds are inclusive |
| CsvValidator.UncoercedFloatEnumChecked | utils/csv_validator.py:77-92 | a `float` cell that `float()` rejects gets no bound issue, but its enum check still runs |
| CsvValidator.BlankStrEnumChecked | utils/csv_validator.py:69-92 | a blank `str` cell is reported empty and is still enum-checked |
| CsvValidator.ValidateCsv | utils/csv_validator.py:24-94 | missing `columns` gives the one schema error; otherwise the header findings come first, nothing follows an absent header, and each later finding names a data row (in ascending order) and a schema field |
| CsvValidator.ColumnOrder | utils/csv_validator.py:59-60 | within each row, findings come in schema column order |
| CsvValidator.FieldFindings | utils/csv_validator.py:59-92 | the findings reported for row i and column c are exactly that cell's reference report |
| CsvValidator.CleanExactly | utils/csv_validator.py:24-94 | a file validates clean exactly when its header equals the schema names and every cell passes every check |
| CoreValidator.ValidateField | utils/core/validator.py:12-21 | the field check reports only the empty-string and int errors |
| CoreValidator.ValidateFieldCases | utils/core/validator.py:12-21 | at most one field issue; empty exactly for a blank `str` value, int error exactly for an `int` value that is not a digit string, nothing for other types |
| CoreValidator.ParseConstraints | utils/core/validator.py:27-30 | a numeric value that `float()` rejects yields no constraint issue at all |
| CoreValidator.ParseSlots | utils/core/validator.py:24-45 | the constraint issues are the bound, regex and enum slots of the split verdict, in that order |
| CoreValidator.ParseReport | utils/core/validator.py:24-45 | the constraint issues are the reference report of the constraint part of the verdict |
| CoreValidator.ParseMembers | utils/core/validator.py:32-43 | a constraint issue is present exactly when its check fires |
| CoreValidator.ParseRanks | utils/core/validator.py:24-45 | the constraint check never reports an empty or int error |
| CoreValidator.FieldReport | utils/core/validator.py:92-93 | field issues followed by constraint issues form the reference report of the split verdict |
| CoreValidator.FieldIssues | utils/core/validator.py:92-93 | a cell's issues are ranked and hold exactly the checks that fire under the split verdict |
| CoreValidator.CheckConditions | utils/core/validator.py:12-45 | each issue is reported under the source's own condition: empty for a `str` value that strips to "", int for a value that is not all digits, min/max for a numeric value `float()` accepts and that lies outside the bound, pattern for a `str` value `re.match` rejects, enum for a value outside the list unless `float()` rejected a numeric value |
| CoreValidator.BoundsInclusive | utils/core/validator.py:32-36 | a coerced value is below `min` exactly when strictly less and above `max` exactly when strictly greater |
| CoreValidator.PatternOnlyOnStr | utils/core/validator.py:38-43 | the regex check fires only on `str` columns whose value does not match; when nothing is dropped, the enum check fires exactly on a value outside the list |
| CoreValidator.ValidateCsv | utils/core/validator.py:71-95 | missing `columns` gives the one schema error; otherwise the header findings come first, then row findings in ascending row order, each naming a schema field |
| CoreValidator.ColumnOrder | utils/core/validator.py:85-93 | within each row, findings come in schema column order |
| CoreValidator.FieldFindings | utils/core/validator.py:85-93 | the findings reported for row i and column c are exactly `validate_field` followed by `parse_constraints` on that cell |
| Agreement.JudgesAgree | utils/csv_validator.py:69-92 | on a value of its declared type, the monolithic engine reaches the split engine's verdict |
| Agreement.FieldsAgree | utils/core/validator.py:85-93 | on a value of its declared type, both engines report the same issues in the same order |
| Agreement.VariantsAgree | utils/core/validator.py:71-95 | on a table whose cells all conform, both engines return the same report |
| Agreement.IntFailureDiverges | utils/csv_validator.py:72-75 | on any value failing the `int` check, the monolithic engine reports the int error alone while the split engine follows it with all of `parse_constraints`' issues |
| Agreement.FloatFailureDiverges | utils/core/validator.py:27-30 | on any `float` value that `float()` rejects, the monolithic engine reports just the enum check's issues and the split engine reports nothing |
| Agreement.SignedIntDiverges | utils/csv_validator.py:72-75 | on the `int` value "-5" with `min` 0, the monolithic engine reports only the int error; the split engine reports it and then the `min` error |
| Agreement.UncoercedFloatDiverges | utils/core/validator.py:27-30 | on a non-numeric `float` value outside its enum, the monolithic engine reports the enum error and the split engine reports nothing |
| Sweep.RowOne | utils/csv_validator.py:60 | a one-column schema yields that column's cell issues, tagged with the row number and field name |
| Sweep.RowAppend | utils/csv_validator.py:60 | the row's findings for a schema split in two are the findings for the first part followed by those for the second |
| Sweep.TableOne | utils/csv_validator.py:59 | a one-row table yields that row's findings, numbered from the start value |
| Sweep.TableAppend | utils/csv_validator.py:59 | a table's findings for rows split in two are the first part's followed by the second part's, numbered on from where the first part stops |
| Sweep.RowShape | utils/csv_validator.py:60-92 | every finding of a row carries that row's number and a schema field |
| Sweep.TableShape | utils/csv_validator.py:59-92 | every row finding carries a row number between 1 and the row count, and a schema field |
| Sweep.TableAscends | utils/csv_validator.py:59 | row numbers never decrease along the findings |
| Sweep.RowColumnsAscend | utils/csv_validator.py:60 | along one row's findings, schema positions never decrease |
| Sweep.TableRowMajor | utils/csv_validator.py:59-60 | among the findings of any one row, schema positions never decrease |
| Sweep.SelectNumbered | utils/csv_validator.py:59-67 | the findings selected for row i and column c are the check applied to the i-th row's cell for c |
| Sweep.TableCongruent | utils/core/validator.py:85-93 | two checks that agree on every cell produce the same findings |
| Sweep.TableQuiet | utils/csv_validator.py:59-92 | a check that reports nothing on every cell leaves no row findings |
| SchemaGenerator.InferType | utils/schema_generator.py:18-31 | "int" exactly when `int()` accepts; "float" only if `float()` accepts; "email" and "string" only when `float()` rejects, split on the presence of "@" |
| SchemaGenerator.Best | utils/schema_generator.py:48 | the pick is a candidate whose count is maximal among the candidates |
| SchemaGenerator.Majority | utils/schema_generator.py:48 | the majority type occurs in the list, and no type occurs more often |
| SchemaGenerator.NonBlank | utils/schema_generator.py:43 | the kept sample values are none of them blank, and there are no more of them than rows |
| SchemaGenerator.NonBlankOne | utils/schema_generator.py:43 | one row contributes its value exactly when the value does not strip to "" |
| SchemaGenerator.NonBlankAppend | utils/schema_generator.py:43 | the comprehension keeps row order: the kept values of two row lists are those of the first followed by those of the second |
| SchemaGenerator.NonBlankEmpty | utils/schema_generator.py:43-45 | no value is kept exactly when every sampled value is blank |
| SchemaGenerator.Types | utils/schema_generator.py:47 | one inferred type per kept value, in order |
| SchemaGenerator.UniqueMajority | utils/schema_generator.py:48 | a type occurring strictly more often than every other is the one chosen |
| SchemaGenerator.GeneratedTypes | utils/schema_generator.py:47-49 | a generated `int` or `float` type is read back by the validators as that type, and a generated `email` or `string` type as an unknown, unchecked one |
| SchemaGenerator.ColumnType | utils/schema_generator.py:43-48 | an all-blank column is "string"; otherwise the type is a most frequent inferred type |
| SchemaGenerator.SampleCount | utils/schema_generator.py:39 | the sample is the first n rows, clamped to 0 and to the row count |
| SchemaGenerator.Entries | utils/schema_generator.py:41-49 | one schema entry per header, in header order, carrying that column's type |
| SchemaGenerator.InferSchema | utils/schema_generator.py:33-51 | an absent or empty header is the no-headers error; otherwise it succeeds exactly when every sampled row has every field, with one entry per header name |
| SchemaGenerator.ColumnVote | utils/schema_generator.py:41-49 | each inferred entry is "string" for an all-blank column, and otherwise a most frequent type among its non-blank sample values |
| SchemaGenerator.SampleOnly | utils/schema_generator.py:39 | rows after the sample do not influence the inferred schema |
| Markdown.Bullets | utils/core/report.py:46-47 | one "- " line per error, in order |
| Markdown.RenderHead | utils/core/report.py:43 | every report starts with the title line and a blank line |
| Markdown.RenderEmpty | utils/core/report.py:48-49 | with no errors the report is the title, a blank line and the no-errors line |
| Markdown.RenderEmptyText | utils/core/report.py:43-49 | the report for no errors is exactly "# Validation Report", a blank line and "✅ No errors found." |
| Markdown.GenerateMarkdownReport | utils/core/report.py:42-50 | the appending loop builds exactly the rendered report |
| Markdown.PartialStep | utils/core/report.py:46-47 | each pass of the loop appends one bullet line for the next error |
| Markdown.ReportShape | utils/core/report.py:43-49 | the lines are the title and a blank line, then either the no-errors line alone or the heading and one bullet per error, with no no-errors line |
| Markdown.RenderSplits | utils/core/report.py:42-50 | splitting the rendered report at newlines gives back its lines |
| Markdown.ReadReportLines | utils/core/report.py:42-50 | reading the report lines back gives the original errors |
| Markdown.ReadRender | utils/core/report.py:42-50 | reading the rendered report back gives the original errors (round trip) |
| Markdown.ReadReport | utils/core/report.py:42-50 | whatever the reader accepts renders back to the lines it read |
| Markdown.ReportBullets | utils/core/report.py:44-47 | the report holds one bullet line per error |
| Markdown.BulletCount | utils/core/report.py:44-47 | counting the bullet lines of the rendered text gives the number of errors |

## Left out

- **File I/O and `json.load`.** Out of scope: `load_schema`, opening the
  CSV file, and `csv.DictReader` tokenisation. The model starts from a
  parsed `SchemaDoc` and a tokenised `Table`. A `Table` is a header plus a
  list of field-to-text maps, where a short row's `None` field is an
  absent key.
- **The command-line entry points, `write_validation_report`, and
  `csv_generator`.** These are I/O and printing around the modelled
  functions.
- **`float()`, `int()` and `re.match`.** These are Python builtins. They
  are the `Oracles` parameters:
  - The only assumption made about them is `DigitsCoerce`: `float()`
    accepts every ASCII digit string. It may round the value or give `inf`,
    but it does not raise. It is used only where the two engines are
    compared.
  - Regular-expression syntax and its prefix-match semantics are not
    modelled.
- **Error message text.** This covers the f-string wording, Python's
  `repr` of lists and numbers inside messages, and the emoji prefixes.
  Findings are data constructors that carry the same parameters the
  messages interpolate. The one exception is the empty-errors Markdown
  text, which is proved literally.
- **Text.IsDigits.** It is ASCII `0`-`9` only. Python's `str.isdigit` also
  accepts other Unicode digit characters, such as superscripts; those are
  not modelled.
- **Python's type errors.** A `min`/`max` on a non-numeric column makes
  `utils/core/validator.py` raise TypeError at lines 32-36. A schema entry
  without `name` or `type` raises KeyError. Neither crash is modelled:
  - The first is the `Comparable`/`BoundsOnlyOnNumbers` precondition of
    the split engine's members.
  - The second cannot be expressed, because `Column` always has both
    fields.
  - Non-numeric `min`/`max` values are not modelled either: bounds are
    reals.
- **Floating point.** `float()` results are reals plus the infinities and
  nan, with IEEE comparison behaviour. Rounding is not modelled.
- **SchemaGenerator.Majority.** It promises only maximality: the winner
  occurs and no type occurs more often. When two types tie, Python's
  `max(set(types), key=types.count)` picks by set iteration order, which
  is not specified. The model picks the first one seen.
- **SchemaGenerator.InferSchema.** A short row, whose field is `None`, makes
  `row[header].strip()` raise AttributeError. This is modelled as a
  `ShortRow` failure rather than an exception.
- **CsvValidator.FieldFindings, CoreValidator.FieldFindings, CsvValidator.CleanExactly, CsvValidator.ColumnOrder, CoreValidator.ColumnOrder.**
  These require distinct column names. With a repeated name, the source
  reports the same cell once per duplicate column, and these statements do
  not describe that case. The engines themselves accept any schema.
- **Agreement.VariantsAgree.** It requires that a table without a header
  has no rows (`WellFormed`). The monolithic engine returns early there,
  while the split engine would still sweep rows.
- **Markdown.ReadRender, Markdown.RenderSplits, Markdown.BulletCount.**
  These require error texts without a newline. An error containing "\n"
  renders into more than one line and cannot be read back.
