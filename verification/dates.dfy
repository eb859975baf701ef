/**
 * The date coercers: `parse_date` (app.py:150-193) and `parse_datetime`
 * (app.py:196-238). Strings are tried against fixed `strptime` formats in
 * order and the first that parses wins; numbers are spreadsheet serial dates,
 * counted in whole days from 1899-12-30. Results are rendered as RFC 3339
 * `full-date` and `partial-time` strings, and every failure is None.
 */
module Dates {
  import opened Strings
  import opened Wrappers
  import opened Calendar
  import opened Strptime
  import opened Cells

  // ---------------------------------------------------------------- formats

  /** Three fields separated by two literal characters, as in `%Y-%m-%d`. */
  function Triple(a: Directive, x: char, b: Directive, y: char, c: Directive): (f: Format)
    ensures |f| == 5 && f[0] == Field(a) && f[2] == Field(b) && f[4] == Field(c)
  {
    [Field(a), Lit(x), Field(b), Lit(y), Field(c)]
  }

  /** Two fields separated by a literal character, as in `%H:%M`. */
  function Pair(a: Directive, x: char, b: Directive): (f: Format)
    ensures |f| == 3 && f[0] == Field(a) && f[2] == Field(b)
  {
    [Field(a), Lit(x), Field(b)]
  }

  const IsoDate := Triple(Year4, '-', Month, '-', Day)
  const DayFirst := Triple(Day, '/', Month, '/', Year4)
  const DayFirstDashed := Triple(Day, '-', Month, '-', Year4)
  const ClockSeconds := Triple(Hour, ':', Minute, ':', Second)
  const ClockMinutes := Pair(Hour, ':', Minute)

  /** The date formats of `parse_date`, in the order they are tried. */
  const DateFormats: seq<Format> := [
    IsoDate,                                // %Y-%m-%d
    DayFirst,                               // %d/%m/%Y
    Triple(Day, '/', Month, '/', Year2),    // %d/%m/%y
    Triple(Month, '/', Day, '/', Year4),    // %m/%d/%Y
    Triple(Year4, '/', Month, '/', Day),    // %Y/%m/%d
    DayFirstDashed,                         // %d-%m-%Y
    Triple(Day, '.', Month, '.', Year4)     // %d.%m.%Y
  ]

  /** The date-and-time formats of `parse_datetime`, in the order they are tried. */
  const DatetimeFormats: seq<Format> := [
    IsoDate + [Blank] + ClockSeconds,          // %Y-%m-%d %H:%M:%S
    IsoDate + [Lit('T')] + ClockSeconds,       // %Y-%m-%dT%H:%M:%S
    DayFirst + [Blank] + ClockMinutes,         // %d/%m/%Y %H:%M
    DayFirst + [Blank] + ClockSeconds,         // %d/%m/%Y %H:%M:%S
    IsoDate + [Blank] + ClockMinutes,          // %Y-%m-%d %H:%M
    DayFirstDashed + [Blank] + ClockSeconds    // %d-%m-%Y %H:%M:%S
  ]

  /** The fields of the first format in `fmts` that parses `s`. */
  function FirstMatch(fmts: seq<Format>, s: string): (r: Option<Fields>)
    ensures r.Some? ==> ValidFields(r.value)
  {
    if fmts == [] then None
    else
      match Parse(fmts[0], s)
      case Some(f) => Some(f)
      case None => FirstMatch(fmts[1..], s)
  }

  // ---------------------------------------------------------------- serial dates

  /** Day 0 of the spreadsheet calendar. */
  const Epoch: CivilDate := Date(1899, 12, 30)

  /** The largest day count a `pd.Timedelta` (64-bit nanoseconds) can hold. */
  const SerialLimit := 106751

  /**
   * `datetime(1899, 12, 30) + pd.Timedelta(days=n)`: the date `n` days after
   * the epoch, or None when the day count does not fit in a Timedelta.
   */
  function SerialDate(n: int): (r: Option<CivilDate>)
    ensures r.Some? <==> -SerialLimit <= n <= SerialLimit
    ensures r.Some? ==> Ordinal(r.value) == Ordinal(Epoch) + n
  {
    if -SerialLimit <= n <= SerialLimit then
      EpochOrdinal();
      FromOrdinalRoundTrip(Ordinal(Epoch) + n);
      Some(FromOrdinal(Ordinal(Epoch) + n))
    else None
  }

  lemma {:induction false} EpochOrdinal()
    ensures Ordinal(Epoch) == 693593
    ensures OrdinalLimit == 3652059
  {
  }

  // ---------------------------------------------------------------- parse_date

  /** The string branch of `parse_date`, on text already trimmed. */
  function ParseDateText(s: string): (r: Option<string>)
    ensures r.Some? ==> IsFullDate(r.value)
    ensures s == [] ==> r.None?
    ensures r.Some? <==> FirstMatch(DateFormats, s).Some? && s != []
  {
    if s == [] then None
    else
      match FirstMatch(DateFormats, s)
      case Some(f) => Some(RenderDate(DateOf(f)))
      case None => None
  }

  /**
   * `parse_date(v)`: None for a missing value, the date part of a timestamp,
   * the serial date of a number, and otherwise the first date format the
   * trimmed text matches.
   */
  function ParseDate(v: Cell): (r: Option<string>)
    ensures IsNA(v) ==> r.None?
    ensures r.Some? ==> IsFullDate(r.value)
    ensures v.Stamp? ==> r == Some(RenderDate(v.date))
    ensures !IsNA(v) && IsNumeric(v) ==> (r.Some? <==> -SerialLimit <= WholeValue(v) <= SerialLimit)
    ensures !IsNA(v) && IsNumeric(v) && r.Some? ==>
      ValidDate(ReadFullDate(r.value)) && Ordinal(ReadFullDate(r.value)) == Ordinal(Epoch) + WholeValue(v)
    ensures !IsNA(v) && !v.Stamp? && !IsNumeric(v) ==> r == ParseDateText(Strip(Text(v)))
  {
    if IsNA(v) then None
    else if v.Stamp? then Some(RenderDate(v.date))
    else if IsNumeric(v) then
      match SerialDate(WholeValue(v))
      case Some(d) => Some(RenderDate(d))
      case None => None
    else ParseDateText(Strip(Text(v)))
  }

  // ---------------------------------------------------------------- parse_datetime

  /**
   * `parse_datetime(v)`: a (date, time) pair. A missing value gives neither;
   * a number gives its serial date at midnight; text gives the first
   * date-and-time format it matches, and otherwise its `parse_date` and no time.
   */
  function ParseDatetime(v: Cell): (r: (Option<string>, Option<string>))
    ensures IsNA(v) ==> r == (None, None)
    ensures r.1.Some? ==> r.0.Some?
    ensures r.0.Some? ==> IsFullDate(r.0.value)
    ensures r.1.Some? ==> IsPartialTime(r.1.value)
    ensures !IsNA(v) && IsNumeric(v) ==> r.0 == ParseDate(v) && (r.0.Some? <==> r.1.Some?)
    ensures !IsNA(v) && IsNumeric(v) && r.1.Some? ==> r.1.value == "00:00:00"
    ensures !IsNA(v) && !IsNumeric(v) ==>
      (r.1.Some? <==> FirstMatch(DatetimeFormats, Strip(Text(v))).Some?)
      && (r.1.None? ==> r.0 == ParseDate(Str(Strip(Text(v)))))
  {
    if IsNA(v) then (None, None)
    else if IsNumeric(v) then
      match SerialDate(WholeValue(v))
      case Some(d) =>
        MidnightText();
        (Some(RenderDate(d)), Some(RenderTime(Midnight)))
      case None => (None, None)
    else
      var s := Strip(Text(v));
      match FirstMatch(DatetimeFormats, s)
      case Some(f) => (Some(RenderDate(DateOf(f))), Some(RenderTime(TimeOf(f))))
      case None => (ParseDate(Str(s)), None)
  }

  lemma {:induction false} MidnightText()
    ensures RenderTime(Midnight) == "00:00:00"
  {
  }

  // ---------------------------------------------------------------- first match wins

  /**
   * The formats are tried in order: the result is that of the first format
   * that parses, and there is a result exactly when some format parses.
   */
  lemma {:induction false} FirstMatchIsFirst(fmts: seq<Format>, s: string, f: Fields)
    ensures FirstMatch(fmts, s) == Some(f) <==>
      exists i :: 0 <= i < |fmts| && Parse(fmts[i], s) == Some(f)
        && forall j :: 0 <= j < i ==> Parse(fmts[j], s).None?
  {
    if exists i :: 0 <= i < |fmts| && Parse(fmts[i], s) == Some(f)
        && forall j :: 0 <= j < i ==> Parse(fmts[j], s).None? {
      var i :| 0 <= i < |fmts| && Parse(fmts[i], s) == Some(f)
        && forall j :: 0 <= j < i ==> Parse(fmts[j], s).None?;
      FirstMatchAt(fmts, s, i);
    }
    if FirstMatch(fmts, s) == Some(f) {
      FirstMatchFound(fmts, s, f);
    }
  }

  /** A result comes from some format, and every format before it failed. */
  lemma {:induction false} FirstMatchFound(fmts: seq<Format>, s: string, f: Fields)
    requires FirstMatch(fmts, s) == Some(f)
    ensures exists i :: 0 <= i < |fmts| && Parse(fmts[i], s) == Some(f)
                          && forall j :: 0 <= j < i ==> Parse(fmts[j], s).None?
  {
    if Parse(fmts[0], s).None? {
      FirstMatchFound(fmts[1..], s, f);
      var i :| 0 <= i < |fmts[1..]| && Parse(fmts[1..][i], s) == Some(f)
        && forall j :: 0 <= j < i ==> Parse(fmts[1..][j], s).None?;
      assert forall j :: 0 <= j < i + 1 ==> Parse(fmts[j], s).None? by {
        forall j | 0 <= j < i + 1
          ensures Parse(fmts[j], s).None?
        {
          if j > 0 {
            assert fmts[j] == fmts[1..][j - 1];
          }
        }
      }
      assert Parse(fmts[i + 1], s) == Some(f);
    } else {
      assert Parse(fmts[0], s) == Some(f);
    }
  }

  /** When the formats before position `i` fail and format `i` parses, its result is returned. */
  lemma {:induction false} FirstMatchAt(fmts: seq<Format>, s: string, i: nat)
    requires i < |fmts|
    requires forall j :: 0 <= j < i ==> Parse(fmts[j], s).None?
    requires Parse(fmts[i], s).Some?
    ensures FirstMatch(fmts, s) == Parse(fmts[i], s)
  {
    if i > 0 {
      assert Parse(fmts[0], s).None?;
      assert forall j :: 0 <= j < i - 1 ==> Parse(fmts[1..][j], s).None? by {
        forall j | 0 <= j < i - 1
          ensures Parse(fmts[1..][j], s).None?
        {
          assert fmts[1..][j] == fmts[j + 1];
        }
      }
      assert fmts[1..][i - 1] == fmts[i];
      FirstMatchAt(fmts[1..], s, i - 1);
    }
  }

  /** When no format parses, there is no result. */
  lemma {:induction false} FirstMatchNone(fmts: seq<Format>, s: string)
    requires forall j :: 0 <= j < |fmts| ==> Parse(fmts[j], s).None?
    ensures FirstMatch(fmts, s).None?
  {
    if fmts != [] {
      assert Parse(fmts[0], s).None?;
      assert forall j :: 0 <= j < |fmts[1..]| ==> Parse(fmts[1..][j], s).None? by {
        forall j | 0 <= j < |fmts[1..]|
          ensures Parse(fmts[1..][j], s).None?
        {
          assert fmts[1..][j] == fmts[j + 1];
        }
      }
      FirstMatchNone(fmts[1..], s);
    }
  }
}
