/**
 * The values a spreadsheet or CSV cell holds once pandas has read it, with
 * the three Python questions the engine asks of them: `pd.isna(v)`,
 * `isinstance(v, (int, float))` and `str(v)`.
 */
module Cells {
  import opened Strings
  import opened Decimals
  import opened Calendar

  /**
   * `Null` is Python's None, `NaN` a float NaN, `NaT` pandas' missing
   * timestamp; `Stamp` a `pd.Timestamp` (whole seconds) and `Span` a
   * `pd.Timedelta` counted in seconds.
   */
  datatype Cell =
    | Null
    | NaN
    | NaT
    | Bool(b: bool)
    | Int(i: int)
    | Float(x: Decimal)
    | Str(s: string)
    | Stamp(date: CivilDate, time: ClockTime)
    | Span(seconds: int)

  /** `pd.isna(v)` */
  predicate IsNA(c: Cell) {
    c.Null? || c.NaN? || c.NaT?
  }

  /** `isinstance(v, (int, float))`; `bool` is a subclass of `int`, and NaN is a float. */
  predicate IsNumeric(c: Cell) {
    c.Bool? || c.Int? || c.Float? || c.NaN?
  }

  /** `float(v)` for a number that is not NaN. */
  function NumberValue(c: Cell): (r: Decimal)
    requires IsNumeric(c) && !IsNA(c)
    ensures c.Int? ==> r == FromInt(c.i)
    ensures c.Bool? ==> r == FromInt(if c.b then 1 else 0)
  {
    match c
    case Bool(b) => FromInt(if b then 1 else 0)
    case Int(i) => FromInt(i)
    case Float(x) => x
  }

  /** `int(v)` for a number that is not NaN: the fraction is dropped, toward zero. */
  function WholeValue(c: Cell): (r: int)
    requires IsNumeric(c) && !IsNA(c)
    ensures c.Int? ==> r == c.i
    ensures c.Bool? ==> r == (if c.b then 1 else 0)
    ensures c.Float? && c.x.exp >= 0 ==> r == c.x.coef * Pow10(c.x.exp)
  {
    match c
    case Bool(b) => if b then 1 else 0
    case Int(i) => i
    case Float(x) => Truncate(x)
  }

  /** `str(v)`. */
  function Text(c: Cell): (r: string)
    ensures c.Str? ==> r == c.s
    ensures c.Stamp? ==> r == RenderDate(c.date) + " " + RenderTime(c.time)
  {
    match c
    case Null => "None"
    case NaN => "nan"
    case NaT => "NaT"
    case Bool(b) => if b then "True" else "False"
    case Int(i) => IntToString(i)
    case Float(x) => Repr(Normalize(x))
    case Str(s) => s
    case Stamp(d, t) => RenderDate(d) + " " + RenderTime(t)
    case Span(n) => SpanText(n)
  }

  /**
   * `str(pd.Timedelta)`: whole days rounded down, then the time of day;
   * a negative span shows its (negative) day count and a `+` before the time.
   */
  function SpanText(n: int): (r: string)
    ensures r != []
  {
    var days := n / 86400;
    var rest := n % 86400;
    var time := Time(rest / 3600, rest % 3600 / 60, rest % 60);
    IntToString(days) + " days" + (if n < 0 then " +" else " ") + RenderTime(time)
  }
}
