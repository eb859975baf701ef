/**
 * The column list of the `CREATE TABLE` statement in create mode
 * (app.py:716-729): one `"name" TYPE` entry per column, in column order, the
 * SQL type chosen from the column's pandas dtype.
 */
module Schema {
  import opened Strings
  import opened Wrappers
  import opened Cells
  import opened Tables

  /** The pandas dtypes the type choice tells apart. */
  datatype Dtype = Int64 | Float64 | Datetime64 | BoolDtype | ObjectDtype

  datatype SqlType = BigInt | DoublePrecision | Timestamp | TextType

  predicate Missing(c: Cell) {
    c.Null? || c.NaN? || c.NaT?
  }

  /**
   * The dtype pandas gives a column of these cells: integers only are
   * int64; numbers and missing values are float64; timestamps and missing
   * values (at least one timestamp) are datetime64; booleans only are bool;
   * anything else, and an empty column, is object.
   */
  function InferDtype(cells: seq<Cell>): (d: Dtype)
    ensures d == Int64 ==> forall i :: 0 <= i < |cells| ==> cells[i].Int?
    ensures d == Float64 ==> forall i :: 0 <= i < |cells| ==> cells[i].Int? || cells[i].Float? || Missing(cells[i])
    ensures d == Datetime64 ==> forall i :: 0 <= i < |cells| ==> cells[i].Stamp? || Missing(cells[i])
    ensures cells == [] ==> d == ObjectDtype
    ensures (exists i :: 0 <= i < |cells| && cells[i].Str?) ==> d == ObjectDtype
  {
    if cells == [] then ObjectDtype
    else if forall i :: 0 <= i < |cells| ==> cells[i].Int? then Int64
    else if forall i :: 0 <= i < |cells| ==> cells[i].Bool? then BoolDtype
    else if forall i :: 0 <= i < |cells| ==> cells[i].Int? || cells[i].Float? || Missing(cells[i]) then Float64
    else if (forall i :: 0 <= i < |cells| ==> cells[i].Stamp? || Missing(cells[i]))
         && (exists i :: 0 <= i < |cells| && cells[i].Stamp?) then Datetime64
    else ObjectDtype
  }

  /** `is_integer_dtype` → BIGINT, `is_float_dtype` → DOUBLE PRECISION, `is_datetime64_any_dtype` → TIMESTAMP, else TEXT. */
  function SqlTypeOf(d: Dtype): (s: SqlType)
    ensures s == BigInt <==> d == Int64
    ensures s == DoublePrecision <==> d == Float64
    ensures s == Timestamp <==> d == Datetime64
  {
    match d
    case Int64 => BigInt
    case Float64 => DoublePrecision
    case Datetime64 => Timestamp
    case _ => TextType
  }

  function SqlName(s: SqlType): (r: string)
    ensures r != [] && '"' !in r
  {
    match s
    case BigInt => "BIGINT"
    case DoublePrecision => "DOUBLE PRECISION"
    case Timestamp => "TIMESTAMP"
    case TextType => "TEXT"
  }

  /** Reads an SQL type name back. */
  function ReadSqlName(r: string): (s: Option<SqlType>)
    ensures s.Some? ==> SqlName(s.value) == r
  {
    if r == "BIGINT" then Some(BigInt)
    else if r == "DOUBLE PRECISION" then Some(DoublePrecision)
    else if r == "TIMESTAMP" then Some(Timestamp)
    else if r == "TEXT" then Some(TextType)
    else None
  }

  /** `f'"{col}" {sql_type}'`. */
  function ColumnDef(name: string, s: SqlType): (r: string)
    ensures |r| == |name| + 3 + |SqlName(s)|
  {
    "\"" + name + "\" " + SqlName(s)
  }

  /** Reads a column entry back: a quoted name without quotes inside, a blank, a type. */
  function ReadColumnDef(r: string): (p: Option<(string, SqlType)>)
    ensures p.Some? ==> '"' !in p.value.0 && ColumnDef(p.value.0, p.value.1) == r
  {
    if |r| < 2 || r[0] != '"' || '"' !in r[1..] then None
    else
      var k := IndexOf(r[1..], '"');
      var name := r[1..][..k];
      var rest := r[1..][k + 1..];
      assert r == "\"" + name + "\"" + rest by {
        assert r[1..] == name + "\"" + rest;
      }
      ReadTypeAfter(name, rest, r)
  }

  /** Reads the blank and the type after the closing quote of `name`. */
  function ReadTypeAfter(name: string, rest: string, r: string): (p: Option<(string, SqlType)>)
    requires '"' !in name && r == "\"" + name + "\"" + rest
    ensures p.Some? ==> p.value.0 == name && ColumnDef(p.value.0, p.value.1) == r
  {
    if rest == [] || rest[0] != ' ' then None
    else
      match ReadSqlName(rest[1..])
      case None => None
      case Some(s) =>
        assert rest == " " + rest[1..];
        Some((name, s))
  }

  /** Every entry reads back as the header and type it was written from. */
  lemma {:induction false} ColumnDefRoundTrip(name: string, s: SqlType)
    requires '"' !in name
    ensures ReadColumnDef(ColumnDef(name, s)) == Some((name, s))
  {
    var r := ColumnDef(name, s);
    var b := " " + SqlName(s);
    ColumnDefBody(name, s);
    IndexOfAfter(name, '"', b);
    BodyParts(name, '"', b);
    ReadSqlNameRoundTrip(s);
    assert r[1..][..|name|] == name;
    assert r[1..][|name| + 1..] == b;
  }

  lemma {:induction false} ColumnDefBody(name: string, s: SqlType)
    ensures |ColumnDef(name, s)| >= 2 && ColumnDef(name, s)[0] == '"'
    ensures ColumnDef(name, s)[1..] == name + ['"'] + (" " + SqlName(s))
  {
  }

  lemma {:induction false} BodyParts(a: string, c: char, b: string)
    ensures (a + [c] + b)[..|a|] == a && (a + [c] + b)[|a| + 1..] == b
  {
  }

  lemma {:induction false} ReadSqlNameRoundTrip(s: SqlType)
    ensures ReadSqlName(SqlName(s)) == Some(s)
  {
  }

  /** A character that does not occur in `a` is first found right after it. */
  lemma {:induction false} IndexOfAfter(a: string, c: char, b: string)
    requires c !in a
    ensures c in a + [c] + b && IndexOf(a + [c] + b, c) == |a|
  {
    if a != [] {
      assert (a + [c] + b)[1..] == a[1..] + [c] + b;
      IndexOfAfter(a[1..], c, b);
    }
  }

  /** The column list of the statement: one entry per header, in column order. */
  function SchemaColumns(t: Table): (r: seq<string>)
    ensures |r| == |t|
  {
    seq(|t|, i requires 0 <= i < |t| => ColumnDef(t[i].name, SqlTypeOf(InferDtype(t[i].cells))))
  }

  /** Each entry of the column list names its column, in order, with the type of its dtype. */
  lemma {:induction false} SchemaColumnsReadBack(t: Table)
    requires forall i :: 0 <= i < |t| ==> '"' !in t[i].name
    ensures forall i :: 0 <= i < |t| ==>
      ReadColumnDef(SchemaColumns(t)[i]) == Some((t[i].name, SqlTypeOf(InferDtype(t[i].cells))))
  {
    forall i | 0 <= i < |t|
      ensures ReadColumnDef(SchemaColumns(t)[i]) == Some((t[i].name, SqlTypeOf(InferDtype(t[i].cells))))
    {
      ColumnDefRoundTrip(t[i].name, SqlTypeOf(InferDtype(t[i].cells)));
    }
  }

  /** A column forced to text or date (strings and None) is declared TEXT, never a number. */
  lemma {:induction false} TextColumnIsText(cells: seq<Cell>)
    requires exists i :: 0 <= i < |cells| && cells[i].Str?
    ensures SqlTypeOf(InferDtype(cells)) == TextType
  {
  }
}
