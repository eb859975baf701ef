/**
 * What the date coercers (app.py:150-238) do on the layouts they were
 * written for: rendered dates read back as themselves, the day-first reading
 * wins over the month-first one unless the day cannot be a month, a
 * timestamp keeps its date and time, a minutes-only clock gets `:00`
 * seconds, and serial numbers count from 1899-12-30 truncating toward zero.
 */
module DateFacts {
  import opened Strings
  import opened Wrappers
  import opened Decimals
  import opened Calendar
  import opened Strptime
  import opened Cells
  import opened Dates

  // ---------------------------------------------------------------- matching shapes

  lemma {:induction false} MatchPair(a: Directive, x: char, b: Directive, ta: string, tb: string, va: int, vb: int,
                  fmt: Format, rest: string, acc: Fields)
    requires ta != [] && AllDigits(ta) && tb != [] && AllDigits(tb)
    requires !IsAsciiDigit(x)
    requires rest != [] ==> !IsAsciiDigit(rest[0])
    requires TokenValue(a, ta) == Some(va) && TokenValue(b, tb) == Some(vb)
    ensures Match(Pair(a, x, b) + fmt, ta + [x] + tb + rest, acc)
         == Match(fmt, rest, Assign(Assign(acc, a, va), b, vb))
  {
    var f1 := [Lit(x)] + ([Field(b)] + fmt);
    assert Pair(a, x, b) + fmt == [Field(a)] + f1;
    assert ta + [x] + tb + rest == ta + ([x] + (tb + rest));
    MatchField(a, ta, [x] + (tb + rest), f1, acc);
    MatchLit(x, x, tb + rest, [Field(b)] + fmt, Assign(acc, a, va));
    MatchField(b, tb, rest, fmt, Assign(acc, a, va));
  }

  lemma {:induction false} MatchTriple(a: Directive, x: char, b: Directive, y: char, c: Directive,
                    ta: string, tb: string, tc: string, va: int, vb: int, vc: int,
                    fmt: Format, rest: string, acc: Fields)
    requires ta != [] && AllDigits(ta) && tb != [] && AllDigits(tb) && tc != [] && AllDigits(tc)
    requires !IsAsciiDigit(x) && !IsAsciiDigit(y)
    requires rest != [] ==> !IsAsciiDigit(rest[0])
    requires TokenValue(a, ta) == Some(va) && TokenValue(b, tb) == Some(vb) && TokenValue(c, tc) == Some(vc)
    ensures Match(Triple(a, x, b, y, c) + fmt, ta + [x] + tb + [y] + tc + rest, acc)
         == Match(fmt, rest, Assign(Assign(Assign(acc, a, va), b, vb), c, vc))
  {
    var acc1 := Assign(acc, a, va);
    var inner := tb + [y] + tc + rest;
    var f1 := [Lit(x)] + (Pair(b, y, c) + fmt);
    TripleSplit(a, x, b, y, c, fmt);
    TextSplit(ta, x, tb, y, tc, rest);
    MatchField(a, ta, [x] + inner, f1, acc);
    MatchLit(x, x, inner, Pair(b, y, c) + fmt, acc1);
    MatchPair(b, y, c, tb, tc, vb, vc, fmt, rest, acc1);
  }

  lemma {:induction false} TripleSplit(a: Directive, x: char, b: Directive, y: char, c: Directive, fmt: Format)
    ensures Triple(a, x, b, y, c) + fmt == [Field(a)] + ([Lit(x)] + (Pair(b, y, c) + fmt))
  {
  }

  lemma {:induction false} TextSplit(ta: string, x: char, tb: string, y: char, tc: string, rest: string)
    ensures ta + [x] + tb + [y] + tc + rest == ta + ([x] + (tb + [y] + tc + rest))
  {
  }

  /** A format whose first field rejects the leading digits does not match. */
  lemma {:induction false} MatchHeadFails(d: Directive, tok: string, rest: string, fmt: Format, acc: Fields)
    requires tok != [] && AllDigits(tok)
    requires rest != [] ==> !IsAsciiDigit(rest[0])
    requires TokenValue(d, tok).None?
    ensures Match([Field(d)] + fmt, tok + rest, acc).None?
  {
    MatchField(d, tok, rest, fmt, acc);
  }

  lemma {:induction false} MatchSecondFails(a: Directive, x: char, b: Directive, y: char, c: Directive,
                         ta: string, tb: string, va: int, fmt: Format, rest: string, acc: Fields)
    requires ta != [] && AllDigits(ta) && tb != [] && AllDigits(tb)
    requires !IsAsciiDigit(x)
    requires rest != [] ==> !IsAsciiDigit(rest[0])
    requires TokenValue(a, ta) == Some(va) && TokenValue(b, tb).None?
    ensures Match(Triple(a, x, b, y, c) + fmt, ta + [x] + tb + rest, acc).None?
  {
    var f2 := [Lit(y), Field(c)] + fmt;
    var f1 := [Lit(x)] + ([Field(b)] + f2);
    assert Triple(a, x, b, y, c) + fmt == [Field(a)] + f1;
    assert ta + [x] + tb + rest == ta + ([x] + (tb + rest));
    MatchField(a, ta, [x] + (tb + rest), f1, acc);
    MatchLit(x, x, tb + rest, [Field(b)] + f2, Assign(acc, a, va));
    MatchHeadFails(b, tb, rest, f2, Assign(acc, a, va));
  }

  /** Nothing left to read but a space or a `T` still expected: no match. */
  lemma {:induction false} MatchEndsEarly(e: Elem, fmt: Format, acc: Fields)
    requires e == Blank || e == Lit('T')
    ensures Match([e] + fmt, [], acc).None?
  {
  }

  // ---------------------------------------------------------------- tokens

  lemma {:induction false} DateTokens(d: CivilDate)
    ensures TokenValue(Year4, Pad4(d.year)) == Some(d.year)
    ensures TokenValue(Month, Pad2(d.month)) == Some(d.month)
    ensures TokenValue(Day, Pad2(d.day)) == Some(d.day)
    ensures TokenValue(Day, Pad2(d.month)) == Some(d.month)
    ensures TokenValue(Month, Pad2(d.day)) == (if d.day <= 12 then Some(d.day) else None)
    ensures TokenValue(Year4, Pad2(d.day)).None? && TokenValue(Year4, Pad2(d.month)).None?
    ensures TokenValue(Day, Pad4(d.year)).None?
  {
    TwoDigitValue(d.month, 1, 12);
    TwoDigitValue(d.day, 1, 31);
    TwoDigitValue(d.month, 1, 31);
    if d.day <= 12 {
      TwoDigitValue(d.day, 1, 12);
    }
  }

  lemma {:induction false} ClockTokens(h: nat, m: nat, s: nat)
    requires h <= 23 && m <= 59 && s <= 59
    ensures TokenValue(Hour, Pad2(h)) == Some(h)
    ensures TokenValue(Minute, Pad2(m)) == Some(m)
    ensures TokenValue(Second, Pad2(s)) == Some(s)
  {
    TwoDigitValue(h, 0, 23);
    TwoDigitValue(m, 0, 59);
    TwoDigitValue(s, 0, 61);
  }

  // ---------------------------------------------------------------- layouts

  /** `dd/mm/yyyy` */
  function DayFirstText(d: CivilDate): string {
    Pad2(d.day) + "/" + Pad2(d.month) + "/" + Pad4(d.year)
  }

  /** `mm/dd/yyyy` */
  function MonthFirstText(d: CivilDate): string {
    Pad2(d.month) + "/" + Pad2(d.day) + "/" + Pad4(d.year)
  }

  function DateFields(d: CivilDate): Fields {
    Fields(d.year, d.month, d.day, 0, 0, 0)
  }

  /** Digit-initial, digit-final text is already trimmed and reaches the format list unchanged. */
  lemma {:induction false} TrimmedText(s: string)
    requires s != [] && IsAsciiDigit(s[0]) && IsAsciiDigit(s[|s| - 1])
    ensures Strip(Text(Str(s))) == s
  {
    StripNoop(s);
  }

  lemma {:induction false} IsoParses(d: CivilDate)
    ensures Parse(IsoDate, RenderDate(d)) == Some(DateFields(d))
  {
    IsoThen(d, [], []);
    assert IsoDate + [] == IsoDate;
    assert RenderDate(d) + [] == RenderDate(d);
  }

  lemma {:induction false} RenderedDateEnds(d: CivilDate)
    ensures IsAsciiDigit(RenderDate(d)[0]) && IsAsciiDigit(RenderDate(d)[9])
  {
    var s := RenderDate(d);
    assert s[0] == s[..4][0];
    assert s[9] == s[8..][1];
  }

  /** A rendered date reads back as itself (`YYYY-MM-DD` is the first format tried). */
  lemma {:induction false} ParseDateIso(d: CivilDate)
    ensures ParseDate(Str(RenderDate(d))) == Some(RenderDate(d))
  {
    var s := RenderDate(d);
    RenderedDateEnds(d);
    TrimmedText(s);
    IsoParses(d);
    FirstMatchAt(DateFormats, s, 0);
  }

  /** `parse_date` is idempotent: each date it returns reads back unchanged. */
  lemma {:induction false} ParseDateIdempotent(v: Cell)
    requires ParseDate(v).Some?
    ensures ParseDate(Str(ParseDate(v).value)) == ParseDate(v)
  {
    if v.Stamp? {
      ParseDateIso(v.date);
    } else if IsNumeric(v) {
      ParseDateIso(SerialDate(WholeValue(v)).value);
    } else {
      ParseDateIso(DateOf(FirstMatch(DateFormats, Strip(Text(v))).value));
    }
  }

  /** A format whose leading field rejects the leading digits does not parse. */
  lemma {:induction false} ParseHeadFails(fmt: Format, d: Directive, tok: string, tail: string)
    requires fmt != [] && fmt[0] == Field(d)
    requires tok != [] && AllDigits(tok) && TokenValue(d, tok).None?
    requires tail != [] ==> !IsAsciiDigit(tail[0])
    ensures Parse(fmt, tok + tail).None?
  {
    assert fmt == [Field(d)] + fmt[1..];
    MatchHeadFails(d, tok, tail, fmt[1..], Defaults);
  }

  lemma {:induction false} RenderDateParts(d: CivilDate)
    ensures RenderDate(d) == Pad4(d.year) + ['-'] + Pad2(d.month) + ['-'] + Pad2(d.day)
    ensures RenderDate(d) == Pad4(d.year) + ("-" + Pad2(d.month) + "-" + Pad2(d.day))
  {
  }

  lemma {:induction false} RenderTimeParts(t: ClockTime)
    ensures RenderTime(t) == Pad2(t.hour) + [':'] + Pad2(t.minute) + [':'] + Pad2(t.second) + []
    ensures IsAsciiDigit(RenderTime(t)[0]) && !IsSpace(RenderTime(t)[0])
    ensures IsAsciiDigit(RenderTime(t)[7])
  {
    var s := RenderTime(t);
    assert s[0] == s[..2][0];
    assert s[7] == s[6..][1];
  }

  lemma {:induction false} DayFirstDigits(d: CivilDate)
    ensures DayFirstText(d) == Pad2(d.day) + ['/'] + Pad2(d.month) + ['/'] + Pad4(d.year)
    ensures DayFirstText(d) == Pad2(d.day) + ("/" + Pad2(d.month) + "/" + Pad4(d.year))
    ensures IsAsciiDigit(DayFirstText(d)[0]) && IsAsciiDigit(DayFirstText(d)[|DayFirstText(d)| - 1])
  {
    var s := DayFirstText(d);
    assert s[0] == Pad2(d.day)[0];
    assert s[|s| - 1] == Pad4(d.year)[3];
  }

  lemma {:induction false} MonthFirstDigits(d: CivilDate)
    ensures MonthFirstText(d) == Pad2(d.month) + ['/'] + Pad2(d.day) + ['/'] + Pad4(d.year) + []
    ensures MonthFirstText(d) == Pad2(d.month) + ("/" + Pad2(d.day) + "/" + Pad4(d.year))
    ensures MonthFirstText(d) == Pad2(d.month) + ['/'] + Pad2(d.day) + ("/" + Pad4(d.year))
    ensures IsAsciiDigit(MonthFirstText(d)[0]) && IsAsciiDigit(MonthFirstText(d)[|MonthFirstText(d)| - 1])
  {
    var s := MonthFirstText(d);
    assert s[0] == Pad2(d.month)[0];
    assert s[|s| - 1] == Pad4(d.year)[3];
  }

  /** `%Y-%m-%d` reads a rendered date and hands the rest to the remaining format. */
  lemma {:induction false} IsoThen(d: CivilDate, tail: Format, rest: string)
    requires rest != [] ==> !IsAsciiDigit(rest[0])
    ensures Match(IsoDate + tail, RenderDate(d) + rest, Defaults) == Match(tail, rest, DateFields(d))
  {
    DateTokens(d);
    RenderDateParts(d);
    MatchTriple(Year4, '-', Month, '-', Day, Pad4(d.year), Pad2(d.month), Pad2(d.day),
                d.year, d.month, d.day, tail, rest, Defaults);
  }

  /** `%d/%m/%Y` reads a day-first date and hands the rest to the remaining format. */
  lemma {:induction false} DayFirstThen(d: CivilDate, tail: Format, rest: string)
    requires rest != [] ==> !IsAsciiDigit(rest[0])
    ensures Match(DayFirst + tail, DayFirstText(d) + rest, Defaults) == Match(tail, rest, DateFields(d))
  {
    DateTokens(d);
    DayFirstDigits(d);
    MatchTriple(Day, '/', Month, '/', Year4, Pad2(d.day), Pad2(d.month), Pad4(d.year),
                d.day, d.month, d.year, tail, rest, Defaults);
  }

  lemma {:induction false} DayFirstParses(d: CivilDate)
    ensures Parse(DayFirst, DayFirstText(d)) == Some(DateFields(d))
  {
    DayFirstThen(d, [], []);
    assert DayFirst + [] == DayFirst;
    assert DayFirstText(d) + [] == DayFirstText(d);
  }

  /**
   * The day-first reading wins: `dd/mm/yyyy` is read as day, month, year for
   * every date, so "01/02/2026" is the first of February.
   */
  lemma {:induction false} ParseDateDayFirst(d: CivilDate)
    ensures ParseDate(Str(DayFirstText(d))) == Some(RenderDate(d))
  {
    var s := DayFirstText(d);
    assert s != [] && Strip(Text(Str(s))) == s by {
      DayFirstDigits(d);
      TrimmedText(s);
    }
    DayFirstNotIso(d);
    DayFirstFormat(d);
    DateByFormat(s, 1, DateFields(d));
  }

  lemma {:induction false} DayFirstNotIso(d: CivilDate)
    ensures forall j :: 0 <= j < 1 ==> Parse(DateFormats[j], DayFirstText(d)).None?
  {
    DayFirstDigits(d);
    DateTokens(d);
    assert DateFormats[0] == IsoDate;
    ParseHeadFails(DateFormats[0], Year4, Pad2(d.day), "/" + Pad2(d.month) + "/" + Pad4(d.year));
    forall j | 0 <= j < 1
      ensures Parse(DateFormats[j], DayFirstText(d)).None?
    {
      assert j == 0;
    }
  }

  lemma {:induction false} DayFirstFormat(d: CivilDate)
    ensures Parse(DateFormats[1], DayFirstText(d)) == Some(DateFields(d))
  {
    assert DateFormats[1] == DayFirst;
    DayFirstParses(d);
  }

  lemma {:induction false} MonthFirstFormat(d: CivilDate)
    ensures Parse(DateFormats[3], MonthFirstText(d)) == Some(DateFields(d))
  {
    assert DateFormats[3] == Triple(Month, '/', Day, '/', Year4);
    MonthFirstParses(d);
  }

  /** Text that the `i`-th date format is the first to match is read as that format's date. */
  lemma {:induction false} DateByFormat(s: string, i: nat, f: Fields)
    requires s != [] && Strip(Text(Str(s))) == s
    requires i < |DateFormats|
    requires forall j :: 0 <= j < i ==> Parse(DateFormats[j], s).None?
    requires Parse(DateFormats[i], s) == Some(f)
    ensures ValidFields(f)
    ensures ParseDate(Str(s)) == Some(RenderDate(DateOf(f)))
  {
    FirstMatchAt(DateFormats, s, i);
    DateOfText(s, f);
  }

  lemma {:induction false} DateOfText(s: string, f: Fields)
    requires s != [] && Strip(Text(Str(s))) == s
    requires FirstMatch(DateFormats, s) == Some(f)
    ensures ValidFields(f)
    ensures ParseDate(Str(s)) == Some(RenderDate(DateOf(f)))
  {
  }

  /** With a day above 12 in the second field, a day-first format finds no month. */
  lemma {:induction false} DayFirstRejects(d: CivilDate, c: Directive)
    requires d.day > 12
    ensures Parse(Triple(Day, '/', Month, '/', c), MonthFirstText(d)).None?
  {
    DateTokens(d);
    MonthFirstDigits(d);
    MatchSecondFails(Day, '/', Month, '/', c, Pad2(d.month), Pad2(d.day), d.month, [], "/" + Pad4(d.year), Defaults);
    assert Triple(Day, '/', Month, '/', c) + [] == Triple(Day, '/', Month, '/', c);
  }

  lemma {:induction false} MonthFirstParses(d: CivilDate)
    ensures Parse(Triple(Month, '/', Day, '/', Year4), MonthFirstText(d)) == Some(DateFields(d))
  {
    var fmt := Triple(Month, '/', Day, '/', Year4);
    assert Match(fmt, MonthFirstText(d), Defaults) == Some(DateFields(d)) by {
      DateTokens(d);
      MonthFirstDigits(d);
      MatchTriple(Month, '/', Day, '/', Year4, Pad2(d.month), Pad2(d.day), Pad4(d.year),
                  d.month, d.day, d.year, [], [], Defaults);
      assert fmt + [] == fmt;
    }
    assert ValidFields(DateFields(d));
  }

  lemma {:induction false} MonthFirstEarlierFail(d: CivilDate)
    requires d.day > 12
    ensures forall j :: 0 <= j < 3 ==> Parse(DateFormats[j], MonthFirstText(d)).None?
  {
    var s := MonthFirstText(d);
    MonthFirstDigits(d);
    DateTokens(d);
    forall j | 0 <= j < 3
      ensures Parse(DateFormats[j], s).None?
    {
      if j == 0 {
        assert DateFormats[0][0] == Field(Year4);
        ParseHeadFails(DateFormats[0], Year4, Pad2(d.month), "/" + Pad2(d.day) + "/" + Pad4(d.year));
      } else if j == 1 {
        assert DateFormats[1] == Triple(Day, '/', Month, '/', Year4);
        DayFirstRejects(d, Year4);
      } else {
        assert DateFormats[2] == Triple(Day, '/', Month, '/', Year2);
        DayFirstRejects(d, Year2);
      }
    }
  }

  /**
   * A day above 12 cannot be a month, so `mm/dd/yyyy` falls through the
   * day-first formats to the month-first one: "01/21/2026" is 21 January.
   */
  lemma {:induction false} ParseDateMonthFirst(d: CivilDate)
    requires d.day > 12
    ensures ParseDate(Str(MonthFirstText(d))) == Some(RenderDate(d))
  {
    var s := MonthFirstText(d);
    assert s != [] && Strip(Text(Str(s))) == s by {
      MonthFirstDigits(d);
      TrimmedText(s);
    }
    MonthFirstEarlierFail(d);
    MonthFirstFormat(d);
    DateByFormat(s, 3, DateFields(d));
  }

  /** Blank text is no date. */
  lemma {:induction false} ParseDateBlank(s: string)
    requires forall i :: 0 <= i < |s| ==> IsSpace(s[i])
    ensures ParseDate(Str(s)).None? && ParseDatetime(Str(s)) == (None, None)
  {
    StripIsTrim(s);
    assert Strip(s) == [];
    FirstMatchBlank();
  }

  lemma {:induction false} FirstMatchBlank()
    ensures FirstMatch(DatetimeFormats, []).None?
  {
    forall j | 0 <= j < |DatetimeFormats|
      ensures Parse(DatetimeFormats[j], []).None?
    {
      assert DatetimeFormats[j][0].Field?;
    }
    FirstMatchNone(DatetimeFormats, []);
  }

  // ---------------------------------------------------------------- parse_datetime

  /** A space and then a clock: the space is skipped. */
  lemma {:induction false} BlankThen(clock: Format, text: string, acc: Fields)
    requires text != [] && !IsSpace(text[0])
    ensures Match([Blank] + clock, " " + text, acc) == Match(clock, text, acc)
  {
    MatchBlank(" ", text, clock, acc);
  }

  lemma {:induction false} ClockSecondsMatch(t: ClockTime, acc: Fields)
    ensures Match(ClockSeconds, RenderTime(t), acc) == Some(acc.(hour := t.hour, minute := t.minute, second := t.second))
  {
    ClockTokens(t.hour, t.minute, t.second);
    RenderTimeParts(t);
    MatchTriple(Hour, ':', Minute, ':', Second, Pad2(t.hour), Pad2(t.minute), Pad2(t.second),
                t.hour, t.minute, t.second, [], [], acc);
    assert ClockSeconds + [] == ClockSeconds;
  }

  lemma {:induction false} ClockMinutesMatch(h: nat, m: nat, acc: Fields)
    requires h <= 23 && m <= 59
    ensures Match(ClockMinutes, Pad2(h) + ":" + Pad2(m), acc) == Some(acc.(hour := h, minute := m))
  {
    ClockTokens(h, m, 0);
    assert Pad2(h) + ":" + Pad2(m) == Pad2(h) + [':'] + Pad2(m) + [];
    MatchPair(Hour, ':', Minute, Pad2(h), Pad2(m), h, m, [], [], acc);
    assert ClockMinutes + [] == ClockMinutes;
  }

  lemma {:induction false} StampText(d: CivilDate, t: ClockTime)
    ensures Text(Stamp(d, t)) == RenderDate(d) + (" " + RenderTime(t))
    ensures IsAsciiDigit(Text(Stamp(d, t))[0]) && IsAsciiDigit(Text(Stamp(d, t))[|Text(Stamp(d, t))| - 1])
  {
    var s := Text(Stamp(d, t));
    RenderedDateEnds(d);
    RenderTimeParts(t);
    assert s[0] == RenderDate(d)[0];
    assert s[|s| - 1] == RenderTime(t)[7];
  }

  lemma {:induction false} StampParses(d: CivilDate, t: ClockTime)
    ensures Parse(DatetimeFormats[0], Text(Stamp(d, t)))
         == Some(Fields(d.year, d.month, d.day, t.hour, t.minute, t.second))
  {
    StampText(d, t);
    RenderTimeParts(t);
    assert DatetimeFormats[0] == IsoDate + ([Blank] + ClockSeconds);
    IsoThen(d, [Blank] + ClockSeconds, " " + RenderTime(t));
    BlankThen(ClockSeconds, RenderTime(t), DateFields(d));
    ClockSecondsMatch(t, DateFields(d));
  }

  /** A timestamp's date and time survive the split unchanged. */
  lemma {:induction false} ParseDatetimeStamp(d: CivilDate, t: ClockTime)
    ensures ParseDatetime(Stamp(d, t)) == (Some(RenderDate(d)), Some(RenderTime(t)))
  {
    StampFirstFormat(d, t);
    DatetimeByFirstFormat(Stamp(d, t), Fields(d.year, d.month, d.day, t.hour, t.minute, t.second));
  }

  lemma {:induction false} StampFirstFormat(d: CivilDate, t: ClockTime)
    ensures Parse(DatetimeFormats[0], Strip(Text(Stamp(d, t))))
         == Some(Fields(d.year, d.month, d.day, t.hour, t.minute, t.second))
  {
    StampText(d, t);
    StripNoop(Text(Stamp(d, t)));
    StampParses(d, t);
  }

  /** Text the first date-and-time format parses gives that format's date and time. */
  lemma {:induction false} DatetimeByFirstFormat(v: Cell, f: Fields)
    requires !IsNA(v) && !IsNumeric(v)
    requires Parse(DatetimeFormats[0], Strip(Text(v))) == Some(f)
    ensures ParseDatetime(v) == (Some(RenderDate(DateOf(f))), Some(RenderTime(TimeOf(f))))
  {
    FirstMatchAt(DatetimeFormats, Strip(Text(v)), 0);
    DatetimeOfText(v, f);
  }

  /** Text whose trimmed form matches a date-and-time format gives that format's date and time. */
  lemma {:induction false} DatetimeOfText(v: Cell, f: Fields)
    requires !IsNA(v) && !IsNumeric(v)
    requires FirstMatch(DatetimeFormats, Strip(Text(v))) == Some(f)
    ensures ParseDatetime(v) == (Some(RenderDate(DateOf(f))), Some(RenderTime(TimeOf(f))))
  {
  }

  /** `dd/mm/yyyy HH:MM` */
  function ShortClockText(d: CivilDate, h: nat, m: nat): string
    requires h <= 23 && m <= 59
  {
    DayFirstText(d) + (" " + (Pad2(h) + ":" + Pad2(m)))
  }

  lemma {:induction false} ShortClockDigits(d: CivilDate, h: nat, m: nat)
    requires h <= 23 && m <= 59
    ensures ShortClockText(d, h, m) == Pad2(d.day) + ("/" + Pad2(d.month) + "/" + Pad4(d.year) + (" " + (Pad2(h) + ":" + Pad2(m))))
    ensures var s := ShortClockText(d, h, m); IsAsciiDigit(s[0]) && IsAsciiDigit(s[|s| - 1])
  {
    var s := ShortClockText(d, h, m);
    DayFirstDigits(d);
    assert s[0] == Pad2(d.day)[0];
    assert s[|s| - 1] == Pad2(m)[1];
  }

  lemma {:induction false} ShortClockParses(d: CivilDate, h: nat, m: nat)
    requires h <= 23 && m <= 59
    ensures Parse(DatetimeFormats[2], ShortClockText(d, h, m)) == Some(Fields(d.year, d.month, d.day, h, m, 0))
  {
    var clock := Pad2(h) + ":" + Pad2(m);
    var f := Fields(d.year, d.month, d.day, h, m, 0);
    assert DatetimeFormats[2] == DayFirst + ([Blank] + ClockMinutes);
    assert Match(DayFirst + ([Blank] + ClockMinutes), ShortClockText(d, h, m), Defaults) == Some(f) by {
      DayFirstThen(d, [Blank] + ClockMinutes, " " + clock);
      assert clock[0] == Pad2(h)[0];
      BlankThen(ClockMinutes, clock, DateFields(d));
      ClockMinutesMatch(h, m, DateFields(d));
    }
    assert ValidFields(f);
  }

  /**
   * `dd/mm/yyyy HH:MM` has no seconds, and the time comes out with `:00`:
   * "21/01/2026 14:30" splits into 2026-01-21 and 14:30:00.
   */
  lemma {:induction false} ParseDatetimeShortClock(d: CivilDate, h: nat, m: nat)
    requires h <= 23 && m <= 59
    ensures ParseDatetime(Str(ShortClockText(d, h, m))) == (Some(RenderDate(d)), Some(RenderTime(Time(h, m, 0))))
  {
    var s := ShortClockText(d, h, m);
    assert Strip(Text(Str(s))) == s by {
      ShortClockDigits(d, h, m);
      TrimmedText(s);
    }
    ShortClockNotSeconds(d, h, m);
    ShortClockParses(d, h, m);
    FirstMatchAt(DatetimeFormats, s, 2);
    DatetimeOfText(Str(s), Fields(d.year, d.month, d.day, h, m, 0));
  }

  /** The two year-first formats with seconds fail on a day-first text. */
  lemma {:induction false} ShortClockNotSeconds(d: CivilDate, h: nat, m: nat)
    requires h <= 23 && m <= 59
    ensures forall j :: 0 <= j < 2 ==> Parse(DatetimeFormats[j], ShortClockText(d, h, m)).None?
  {
    var s := ShortClockText(d, h, m);
    ShortClockDigits(d, h, m);
    DateTokens(d);
    var tail := "/" + Pad2(d.month) + "/" + Pad4(d.year) + (" " + (Pad2(h) + ":" + Pad2(m)));
    assert DatetimeFormats[0][0] == Field(Year4) && DatetimeFormats[1][0] == Field(Year4);
    ParseHeadFails(DatetimeFormats[0], Year4, Pad2(d.day), tail);
    ParseHeadFails(DatetimeFormats[1], Year4, Pad2(d.day), tail);
    forall j | 0 <= j < 2
      ensures Parse(DatetimeFormats[j], s).None?
    {
      if j == 0 { } else { }
    }
  }

  /** A date without a time splits into that date and no time. */
  lemma {:induction false} ParseDatetimeDateOnly(d: CivilDate)
    ensures ParseDatetime(Str(RenderDate(d))) == (Some(RenderDate(d)), None)
  {
    var s := RenderDate(d);
    RenderedDateEnds(d);
    TrimmedText(s);
    DateOnlyFails(d);
    FirstMatchNone(DatetimeFormats, s);
    ParseDateIso(d);
  }

  lemma {:induction false} DateOnlyFails(d: CivilDate)
    ensures forall j :: 0 <= j < |DatetimeFormats| ==> Parse(DatetimeFormats[j], RenderDate(d)).None?
  {
    forall j | 0 <= j < |DatetimeFormats|
      ensures Parse(DatetimeFormats[j], RenderDate(d)).None?
    {
      if j == 0 {
        assert DatetimeFormats[j] == IsoDate + ([Blank] + ClockSeconds);
        IsoEndsEarly(d, Blank, ClockSeconds);
      } else if j == 1 {
        assert DatetimeFormats[j] == IsoDate + ([Lit('T')] + ClockSeconds);
        IsoEndsEarly(d, Lit('T'), ClockSeconds);
      } else if j == 4 {
        assert DatetimeFormats[j] == IsoDate + ([Blank] + ClockMinutes);
        IsoEndsEarly(d, Blank, ClockMinutes);
      } else {
        assert DatetimeFormats[j][0] == Field(Day);
        DayOnYearFails(d, DatetimeFormats[j]);
      }
    }
  }

  /** A bare date stops a date-and-time format where the time should start. */
  lemma {:induction false} IsoEndsEarly(d: CivilDate, e: Elem, clock: Format)
    requires e == Blank || e == Lit('T')
    ensures Parse(IsoDate + ([e] + clock), RenderDate(d)).None?
  {
    IsoThen(d, [e] + clock, []);
    assert RenderDate(d) + [] == RenderDate(d);
    MatchEndsEarly(e, clock, DateFields(d));
  }

  /** A four-digit year is no day of the month. */
  lemma {:induction false} DayOnYearFails(d: CivilDate, fmt: Format)
    requires fmt != [] && fmt[0] == Field(Day)
    ensures Parse(fmt, RenderDate(d)).None?
  {
    DateTokens(d);
    RenderDateParts(d);
    ParseHeadFails(fmt, Day, Pad4(d.year), "-" + Pad2(d.month) + "-" + Pad2(d.day));
  }

  // ---------------------------------------------------------------- serial dates

  const NewYearsEve: CivilDate := Date(1899, 12, 31)

  /** Serial 0 is 1899-12-30 and serial 1 the day after. */
  lemma {:induction false} SerialEpoch()
    ensures SerialDate(0) == Some(Epoch)
    ensures SerialDate(1) == Some(NewYearsEve)
  {
    OrdinalRoundTrip(Epoch);
    OrdinalRoundTrip(NewYearsEve);
    assert Ordinal(NewYearsEve) == Ordinal(Epoch) + 1;
  }

  /** Distinct dates render differently. */
  lemma {:induction false} RenderDateInjective(d: CivilDate, e: CivilDate)
    requires d != e
    ensures RenderDate(d) != RenderDate(e)
  {
    assert ReadFullDate(RenderDate(d)) == d;
    assert ReadFullDate(RenderDate(e)) == e;
  }

  lemma {:induction false} TruncateExample()
    ensures Truncate(Decimal(-15, -1)) == -1
  {
    assert Pow10(1) == 10;
    assert WholeDiv(15, 10) == 1;
  }

  /**
   * A fractional serial number is truncated toward zero, not floored: -1.5
   * is the day before the epoch, the same as -1 and not -2.
   */
  lemma {:induction false} SerialTruncatesTowardZero()
    ensures ParseDate(Float(Decimal(-15, -1))) == ParseDate(Int(-1))
    ensures ParseDate(Float(Decimal(-15, -1))) != ParseDate(Int(-2))
  {
    assert WholeValue(Float(Decimal(-15, -1))) == WholeValue(Int(-1)) by {
      TruncateExample();
    }
    SameWholeSameDate(Float(Decimal(-15, -1)), Int(-1));
    SerialDistinct(-1, -2);
  }

  /** A number reads as a date through its whole part only. */
  lemma {:induction false} SameWholeSameDate(v: Cell, w: Cell)
    requires !IsNA(v) && IsNumeric(v) && !IsNA(w) && IsNumeric(w)
    requires WholeValue(v) == WholeValue(w)
    ensures ParseDate(v) == ParseDate(w)
  {
  }

  /** Different in-range serial numbers give different dates. */
  lemma {:induction false} SerialDistinct(n: int, k: int)
    requires -SerialLimit <= n <= SerialLimit && -SerialLimit <= k <= SerialLimit && n != k
    ensures ParseDate(Int(n)) != ParseDate(Int(k))
  {
    var a, b := SerialDate(n).value, SerialDate(k).value;
    RenderDateInjective(a, b);
  }
}
