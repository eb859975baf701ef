/**
 * `normalize_dataframe` (app.py:262-347): headers are snake-cased, columns
 * that look like dates are optionally split into a `date_` and an `heure_`
 * column, the requested types are forced column by column, and every missing
 * value becomes None.
 */
module Normalize {
  import opened Strings
  import opened Wrappers
  import opened Calendar
  import opened Cells
  import opened Headers
  import opened Cleaning
  import opened Dates
  import opened Tables

  // ---------------------------------------------------------------- headers

  /** `df.columns = [snake_case(col) for col in df.columns]`. */
  function SnakeHeaders(t: Table): (r: Table)
    ensures |r| == |t|
    ensures forall i :: 0 <= i < |t| ==> r[i].name == SnakeCase(t[i].name) && r[i].cells == t[i].cells
    ensures forall i :: 0 <= i < |r| ==> IsSnake(r[i].name)
  {
    seq(|t|, i requires 0 <= i < |t| => Column(SnakeCase(t[i].name), t[i].cells))
  }

  predicate AllSnake(t: Table) {
    forall i :: 0 <= i < |t| ==> IsSnake(t[i].name)
  }

  // ---------------------------------------------------------------- detection

  /** `series.dropna()`: the values that are not missing, in order. */
  function Present(cells: seq<Cell>): (r: seq<Cell>)
    ensures |r| <= |cells|
    ensures forall i :: 0 <= i < |r| ==> !IsNA(r[i])
    ensures forall c :: c in r <==> c in cells && !IsNA(c)
  {
    if cells == [] then []
    else if IsNA(cells[0]) then Present(cells[1..])
    else [cells[0]] + Present(cells[1..])
  }

  /** `series.dropna().head(10)`. */
  function Sample(cells: seq<Cell>): (r: seq<Cell>)
    ensures |r| <= 10 && |r| <= |Present(cells)|
    ensures r == Present(cells)[..|r|]
    ensures |r| < 10 ==> r == Present(cells)
  {
    var p := Present(cells);
    if |p| <= 10 then p else p[..10]
  }

  /** What makes one sampled value count as a date: a number, `' '` with `':'`, a `/` or a `-`. */
  predicate LooksLikeDate(v: Cell) {
    IsNumeric(v) || (' ' in Text(v) && ':' in Text(v)) || '/' in Text(v) || '-' in Text(v)
  }

  /**
   * The sampling loop of the split pass: a number or a text with a space and
   * a colon settles it at once; a `/` or `-` sets the flag and keeps looking.
   */
  function ScanDates(vals: seq<Cell>, found: bool): (r: bool)
  {
    if vals == [] then found
    else if IsNumeric(vals[0]) then true
    else
      var s := Text(vals[0]);
      if ' ' in s && ':' in s then true
      else ScanDates(vals[1..], found || '/' in s || '-' in s)
  }

  /** `has_date` after the loop: some sampled value looks like a date. */
  lemma {:induction false} ScanDatesFinds(vals: seq<Cell>, found: bool)
    ensures ScanDates(vals, found) <==> found || exists i :: 0 <= i < |vals| && LooksLikeDate(vals[i])
  {
    if vals != [] {
      ScanDatesFinds(vals[1..], found || '/' in Text(vals[0]) || '-' in Text(vals[0]));
      if exists i :: 0 <= i < |vals[1..]| && LooksLikeDate(vals[1..][i]) {
        var i :| 0 <= i < |vals[1..]| && LooksLikeDate(vals[1..][i]);
        assert LooksLikeDate(vals[i + 1]);
      }
      if exists i :: 0 <= i < |vals| && LooksLikeDate(vals[i]) {
        var i :| 0 <= i < |vals| && LooksLikeDate(vals[i]);
        if i > 0 {
          assert LooksLikeDate(vals[1..][i - 1]);
        }
      }
    }
  }

  /** The column is split when one of its first ten present values looks like a date. */
  predicate Detected(cells: seq<Cell>) {
    ScanDates(Sample(cells), false)
  }

  // ---------------------------------------------------------------- split

  /** `'date' in col.lower()`; canonical headers are already lower-case ASCII. */
  predicate IsDateName(col: string) {
    HasSubstring(LowerAscii(col), "date")
  }

  /** The date column's name: the source's own name when it already starts with `date_`. */
  function DateName(col: string): (r: string)
    ensures IsSnake(col) ==> IsSnake(r)
    ensures StartsWith(col, "date_") ==> r == col
    ensures !StartsWith(col, "date_") ==> r != col
  {
    if StartsWith(col, "date_") then col else "date_" + col
  }

  /** The time column's name, and none when the source already starts with `heure_`. */
  function TimeName(col: string): (r: Option<string>)
    ensures r.Some? ==> r.value != col && r.value != DateName(col)
    ensures IsSnake(col) && r.Some? ==> IsSnake(r.value)
    ensures r.None? <==> StartsWith(col, "heure_")
  {
    if StartsWith(col, "heure_") then None
    else
      var r := "heure_" + col;
      assert r[0] == 'h' && (DateName(col)[0] == 'd' || DateName(col) == col);
      Some(r)
  }

  /** A coerced value goes into the frame as text, or None. */
  function TextOrNull(o: Option<string>): (r: Cell)
    ensures r.Null? <==> o.None?
    ensures o.Some? ==> r == Str(o.value)
  {
    match o
    case None => Null
    case Some(s) => Str(s)
  }

  /** The date halves of `parse_datetime`, one per row. */
  function DateParts(cells: seq<Cell>): (r: seq<Cell>)
    ensures |r| == |cells|
    ensures forall i :: 0 <= i < |cells| ==> r[i] == TextOrNull(ParseDatetime(cells[i]).0)
  {
    seq(|cells|, i requires 0 <= i < |cells| => TextOrNull(ParseDatetime(cells[i]).0))
  }

  /** The time halves of `parse_datetime`, one per row. */
  function TimeParts(cells: seq<Cell>): (r: seq<Cell>)
    ensures |r| == |cells|
    ensures forall i :: 0 <= i < |cells| ==> r[i] == TextOrNull(ParseDatetime(cells[i]).1)
  {
    seq(|cells|, i requires 0 <= i < |cells| => TextOrNull(ParseDatetime(cells[i]).1))
  }

  /** Write the date column, then the time column, then drop the source. */
  function Split(t: Table, col: string, cells: seq<Cell>): (r: Table)
    ensures col !in Names(r)
  {
    var t1 := Put(t, DateName(col), DateParts(cells));
    var t2 := match TimeName(col)
      case None => t1
      case Some(n) => Put(t1, n, TimeParts(cells));
    Drop(t2, col)
  }

  /**
   * One iteration of the split loop. A column that is gone is skipped when
   * its name mentions `date`, and otherwise reading it raises (None).
   */
  function SplitColumn(t: Table, col: string): (r: Option<Table>)
    ensures r.None? <==> col !in Names(t) && !IsDateName(col)
    ensures col in Names(t) && !Detected(Get(t, col)) ==> r == Some(t)
    ensures col in Names(t) && Detected(Get(t, col)) ==> r.Some? && col !in Names(r.value)
  {
    if col !in Names(t) then
      if IsDateName(col) then Some(t) else None
    else
      var cells := Get(t, col);
      if !Detected(cells) then Some(t) else Some(Split(t, col, cells))
  }

  /** The split loop over the header list taken before the loop starts. */
  function SplitAll(t: Table, cols: seq<string>): (r: Option<Table>)
    decreases |cols|
  {
    if cols == [] then Some(t)
    else
      match SplitColumn(t, cols[0])
      case None => None
      case Some(t1) => SplitAll(t1, cols[1..])
  }

  // ---------------------------------------------------------------- forced types

  /** `parse_date` as a column transform. */
  function DateCell(v: Cell): (r: Cell)
    ensures r.Null? || (r.Str? && IsFullDate(r.s))
    ensures IsNA(v) ==> r.Null?
    ensures v.Stamp? ==> r == Str(RenderDate(v.date))
  {
    TextOrNull(ParseDate(v))
  }

  /** `clean_number` as a column transform. */
  function NumberCell(v: Cell): (r: Cell)
    ensures r.Null? || r.Float?
    ensures IsNA(v) ==> r.Null?
    ensures !IsNA(v) && IsNumeric(v) ==> r == Float(NumberValue(v))
  {
    match CleanNumber(v)
    case None => Null
    case Some(x) => Float(x)
  }

  /** `clean_text` as a column transform. */
  function TextCell(v: Cell): (r: Cell)
    ensures r.Null? || (r.Str? && r.s != [])
    ensures IsNA(v) ==> r.Null?
  {
    TextOrNull(CleanText(v))
  }

  /** The transform a requested type names; any other name is ignored. */
  function Coercer(kind: string): (r: Option<Cell -> Cell>)
    ensures r.Some? <==> kind in {"date", "numeric", "text"}
  {
    if kind == "date" then Some(DateCell)
    else if kind == "numeric" then Some(NumberCell)
    else if kind == "text" then Some(TextCell)
    else None
  }

  /** One entry of `column_types`: a missing column or an unknown type changes nothing. */
  function ApplyType(t: Table, col: string, kind: string): (r: Table)
    ensures col !in Names(t) || kind !in {"date", "numeric", "text"} ==> r == t
    ensures col in Names(t) && kind in {"date", "numeric", "text"} ==>
      Names(r) == Names(t) && Get(r, col) == MapCells(Get(t, col), Coercer(kind).value)
  {
    if col !in Names(t) then t
    else
      match Coercer(kind)
      case None => t
      case Some(f) =>
        GetPut(t, col, MapCells(Get(t, col), f));
        PutExisting(t, col, MapCells(Get(t, col), f));
        Apply(t, col, f)
  }

  /** `for col, col_type in column_types.items()`, in the order given. */
  function ApplyTypes(t: Table, types: seq<(string, string)>): (r: Table)
    decreases |types|
  {
    if types == [] then t else ApplyTypes(ApplyType(t, types[0].0, types[0].1), types[1..])
  }

  // ---------------------------------------------------------------- nulls

  function Unify(c: Cell): (r: Cell)
    ensures !r.NaN? && !r.NaT?
    ensures r.Null? <==> IsNA(c)
    ensures !IsNA(c) ==> r == c
  {
    if IsNA(c) then Null else c
  }

  /** `df.where(pd.notnull(df), None)`: NaN and NaT become None, nothing else changes. */
  function UnifyNulls(t: Table): (r: Table)
    ensures |r| == |t|
    ensures forall i :: 0 <= i < |t| ==> r[i].name == t[i].name && |r[i].cells| == |t[i].cells|
    ensures forall i, j :: 0 <= i < |t| && 0 <= j < |t[i].cells| ==>
      !r[i].cells[j].NaN? && !r[i].cells[j].NaT? && (r[i].cells[j].Null? <==> IsNA(t[i].cells[j]))
    ensures forall i, j :: 0 <= i < |t| && 0 <= j < |t[i].cells| && !IsNA(t[i].cells[j]) ==>
      r[i].cells[j] == t[i].cells[j]
  {
    seq(|t|, i requires 0 <= i < |t| => Column(t[i].name, MapCells(t[i].cells, Unify)))
  }

  // ---------------------------------------------------------------- the whole pass

  /**
   * `normalize_dataframe(df, column_types, split_datetime)`; None when the
   * split pass raises.
   */
  function NormalizeTable(t: Table, types: seq<(string, string)>, split: bool): (r: Option<Table>)
    ensures !split ==> r.Some?
  {
    var t1 := SnakeHeaders(t);
    var t2 := if split then SplitAll(t1, Names(t1)) else Some(t1);
    match t2
    case None => None
    case Some(t3) => Some(UnifyNulls(ApplyTypes(t3, types)))
  }
}
