/**
 * The row reader: `convert_row` maps one header-keyed record onto a table's
 * declared column list, and `read_rows` converts every record of a table's
 * source file, in file order.
 */
module Rows {
  import opened Wrappers
  import opened Strings
  import opened Integers
  import opened Schema
  import opened Sequences

  /**
   * One record as `csv.DictReader` yields it: header name to field text.  A
   * line shorter than the header maps the missing names to `None` (the
   * reader's default `restval`).
   */
  type Record = map<string, Option<string>>

  /** Each error that aborts reading a table. */
  datatype Fault =
    // the table's source file does not exist (`FileNotFoundError`)
    | MissingFile(file: string)
    // a short line gave `None`, and `None.strip()` raises `AttributeError`
    | MissingField(column: string)
    // `float(text)` raised `ValueError`
    | NotADecimal(column: string, text: string)
    // `int(text)` raised `ValueError`
    | NotAnInteger(column: string, text: string)

  /** Python's `float(text)`, left abstract: `None` is its `ValueError`. */
  type DecimalParser = string -> Option<real>

  /** The record gives `column` no content: the name is absent or the text is whitespace only. */
  predicate Blank(record: Record, column: string)
  {
    column !in record || (record[column].Some? && Strip(record[column].value) == "")
  }

  /** The per-field rule of `convert_row` for one declared column. */
  function Coerce(record: Record, config: TableConfig, column: string, parseFloat: DecimalParser)
    : Result<Value, Fault>
  {
    if column !in record then Success(Null)
    else match record[column]
      case None => Failure(MissingField(column))
      case Some(raw) =>
        var text := Strip(raw);
        if text == "" then Success(Null)
        else match KindOf(config, column)
          case DecimalKind =>
            (match parseFloat(text)
             case Some(d) => Success(Decimal(d))
             case None => Failure(NotADecimal(column, text)))
          case IntegerKind =>
            (match ParseInt(text)
             case Some(n) => Success(Integer(n))
             case None => Failure(NotAnInteger(column, text)))
          case TextKind => Success(Text(text))
  }

  /** The per-field rule as a step over column names, for one record. */
  function FieldRule(record: Record, config: TableConfig, parseFloat: DecimalParser)
    : string -> Result<Value, Fault>
  {
    column => Coerce(record, config, column, parseFloat)
  }

  /** `convert_row(record, config)`: the per-field rule over the declared columns, in order. */
  function ConvertRecord(record: Record, config: TableConfig, parseFloat: DecimalParser)
    : Result<Row, Fault>
  {
    MapAll(config.columns, FieldRule(record, config, parseFloat))
  }

  /** A column whose field converts: absent, blank, text, or numeric text its parser accepts. */
  predicate FieldConverts(record: Record, config: TableConfig, column: string,
                          parseFloat: DecimalParser)
  {
    column !in record ||
    (record[column].Some? &&
     var text := Strip(record[column].value);
     text == "" ||
     ((column in config.floatFields ==> parseFloat(text).Some?) &&
      (column !in config.floatFields && column in config.intFields ==> ParseInt(text).Some?)))
  }

  lemma CoerceSucceedsIff(record: Record, config: TableConfig, c: string, parseFloat: DecimalParser)
    ensures Coerce(record, config, c, parseFloat).Success? <==> FieldConverts(record, config, c, parseFloat)
  {
  }

  /**
   * Conversion succeeds exactly when every declared column converts: a short
   * line's missing field, or a non-empty numeric field its parser rejects,
   * fails the whole record instead of defaulting.
   */
  lemma ConvertSucceedsIff(record: Record, config: TableConfig, parseFloat: DecimalParser)
    ensures ConvertRecord(record, config, parseFloat).Success? <==>
            forall i | 0 <= i < |config.columns| ::
              FieldConverts(record, config, config.columns[i], parseFloat)
  {
    var f := FieldRule(record, config, parseFloat);
    MapAllSpec(config.columns, f);
    forall i | 0 <= i < |config.columns|
      ensures f(config.columns[i]).Success? <==>
              FieldConverts(record, config, config.columns[i], parseFloat)
    {
      CoerceSucceedsIff(record, config, config.columns[i], parseFloat);
    }
  }

  /**
   * The value a converted field holds: NULL exactly for a blank field
   * (whatever the column's kind); otherwise the decimal parse when the column
   * is a float field (even if it is an int field too), the integer parse when
   * it is only an int field, and the stripped text unchanged when it is neither.
   */
  predicate ConvertedField(record: Record, config: TableConfig, c: string,
                           parseFloat: DecimalParser, v: Value)
  {
    && (v == Null <==> Blank(record, c))
    && (!Blank(record, c) ==>
          && c in record && record[c].Some?
          && var text := Strip(record[c].value);
          && (c in config.floatFields ==> v.Decimal? && parseFloat(text) == Some(v.decimal))
          && (c !in config.floatFields && c in config.intFields ==>
                v.Integer? && ParseInt(text) == Some(v.integer))
          && (c !in config.floatFields && c !in config.intFields ==> v == Text(text)))
  }

  lemma CoerceValue(record: Record, config: TableConfig, c: string, parseFloat: DecimalParser)
    requires Coerce(record, config, c, parseFloat).Success?
    ensures ConvertedField(record, config, c, parseFloat, Coerce(record, config, c, parseFloat).value)
  {
  }

  /** Each value of a converted record is its field's converted value, column by column. */
  lemma ConvertedValues(record: Record, config: TableConfig, parseFloat: DecimalParser)
    requires ConvertRecord(record, config, parseFloat).Success?
    ensures var row := ConvertRecord(record, config, parseFloat).value;
      && |row| == |config.columns|
      && forall i | 0 <= i < |config.columns| ::
           ConvertedField(record, config, config.columns[i], parseFloat, row[i])
  {
    var f := FieldRule(record, config, parseFloat);
    MapAllSpec(config.columns, f);
    var row := ConvertRecord(record, config, parseFloat).value;
    forall i | 0 <= i < |config.columns|
      ensures ConvertedField(record, config, config.columns[i], parseFloat, row[i])
    {
      assert f(config.columns[i]) == Success(row[i]);
      CoerceValue(record, config, config.columns[i], parseFloat);
    }
  }

  /** `convert_row` as the source writes it: a loop that appends one value per declared column. */
  method ConvertRow(record: Record, config: TableConfig, parseFloat: DecimalParser)
    returns (r: Result<Row, Fault>)
    ensures r == ConvertRecord(record, config, parseFloat)
  {
    var columns := config.columns;
    var converted: Row := [];
    var i := 0;
    while i < |columns|
      invariant 0 <= i <= |columns|
      invariant MapAll(columns[..i], FieldRule(record, config, parseFloat)) == Success(converted)
    {
      var column := columns[i];
      MapAllExtend(columns, i, FieldRule(record, config, parseFloat), converted);
      var field := if column in record then record[column] else Some("");
      if field.None? {
        return Failure(MissingField(column));
      }
      var value := Strip(field.value);
      if value == "" {
        converted := converted + [Null];
      } else if column in config.floatFields {
        var d := parseFloat(value);
        if d.None? {
          return Failure(NotADecimal(column, value));
        }
        converted := converted + [Decimal(d.value)];
      } else if column in config.intFields {
        var n := ParseInt(value);
        if n.None? {
          return Failure(NotAnInteger(column, value));
        }
        converted := converted + [Integer(n.value)];
      } else {
        converted := converted + [Text(value)];
      }
      i := i + 1;
    }
    assert columns[..i] == columns;
    r := Success(converted);
  }

  /** Record conversion as a step over records. */
  function RecordRule(config: TableConfig, parseFloat: DecimalParser): Record -> Result<Row, Fault>
  {
    record => ConvertRecord(record, config, parseFloat)
  }

  /** `read_rows(t)` over the parsed source files; a table without a file fails. */
  function ReadTable(files: map<TableName, seq<Record>>, t: TableName, parseFloat: DecimalParser)
    : Result<seq<Row>, Fault>
  {
    if t !in files then Failure(MissingFile(Config(t).file))
    else MapAll(files[t], RecordRule(Config(t), parseFloat))
  }

  /**
   * Reading yields one converted tuple per record, in record order, with
   * nothing dropped, reordered or merged; it fails exactly when the file is
   * missing or some record fails, and then with the error of the first failing record.
   */
  lemma ReadTableSpec(files: map<TableName, seq<Record>>, t: TableName, parseFloat: DecimalParser)
    ensures var r := ReadTable(files, t, parseFloat);
      && (r.Success? <==>
            t in files &&
            forall i | 0 <= i < |files[t]| :: ConvertRecord(files[t][i], Config(t), parseFloat).Success?)
      && (r.Success? ==>
            && |r.value| == |files[t]|
            && forall i | 0 <= i < |files[t]| ::
                 ConvertRecord(files[t][i], Config(t), parseFloat) == Success(r.value[i]))
      && (r.Failure? && t in files ==>
            exists k | 0 <= k < |files[t]| ::
              && ConvertRecord(files[t][k], Config(t), parseFloat) == Failure(r.error)
              && forall i | 0 <= i < k :: ConvertRecord(files[t][i], Config(t), parseFloat).Success?)
      && (t !in files ==> r == Failure(MissingFile(Config(t).file)))
  {
    if t in files {
      MapAllSpec(files[t], RecordRule(Config(t), parseFloat));
    }
  }

  /** A table that reads successfully has exactly as many rows as its file has records. */
  lemma ReadTableCount(files: map<TableName, seq<Record>>, t: TableName, parseFloat: DecimalParser)
    requires ReadTable(files, t, parseFloat).Success?
    ensures t in files && |ReadTable(files, t, parseFloat).value| == |files[t]|
  {
    ReadTableSpec(files, t, parseFloat);
  }

  /** `read_rows` as the source writes it: one converted tuple appended per record. */
  method ReadRows(files: map<TableName, seq<Record>>, t: TableName, parseFloat: DecimalParser)
    returns (r: Result<seq<Row>, Fault>)
    ensures r == ReadTable(files, t, parseFloat)
  {
    var config := Config(t);
    if t !in files {
      return Failure(MissingFile(config.file));
    }
    var records := files[t];
    var rows: seq<Row> := [];
    var i := 0;
    while i < |records|
      invariant 0 <= i <= |records|
      invariant MapAll(records[..i], RecordRule(config, parseFloat)) == Success(rows)
    {
      MapAllExtend(records, i, RecordRule(config, parseFloat), rows);
      var converted := ConvertRow(records[i], config, parseFloat);
      if converted.Failure? {
        return Failure(converted.error);
      }
      rows := rows + [converted.value];
      i := i + 1;
    }
    assert records[..i] == records;
    r := Success(rows);
  }
}
