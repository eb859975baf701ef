/**
 * `datetime.strptime(s, fmt)` for the directives the engine's formats use.
 *
 * Python compiles a format into a case-insensitive regular expression in
 * which every run of whitespace in the format becomes `\s+`, matches it at the
 * start of the string, and rejects the string when anything is left over or
 * when the fields do not make a real date and time. The directives' patterns
 * are:
 *
 *   %Y  four digits          %y  two digits (00..68 -> 20xx, 69..99 -> 19xx)
 *   %m  01..12 or 1..9       %d  01..31, 1..9, or a space and 1..9
 *   %H  00..23 or 0..9       %M  00..59 or 0..9       %S  00..61 or 0..9
 *
 * In every format used here a numeric field is followed by a literal that is
 * not a digit, by whitespace, or by the end of the string, and each pattern
 * lists its two-character alternatives before its one-character one. So a
 * field matches exactly when the maximal run of digits at that point is one
 * of its alternatives, which is how `Match` reads it.
 */
module Strptime {
  import opened Strings
  import opened Wrappers
  import opened Calendar

  datatype Directive = Year4 | Year2 | Month | Day | Hour | Minute | Second

  /** A format element: a directive, a literal character, or a space (`\s+`). */
  datatype Elem = Field(directive: Directive) | Lit(c: char) | Blank

  type Format = seq<Elem>

  datatype Fields = Fields(year: int, month: int, day: int, hour: int, minute: int, second: int)

  /** What `strptime` assumes for the fields a format does not mention. */
  const Defaults := Fields(1900, 1, 1, 0, 0, 0)

  /** The longest prefix of `s` made of whitespace. */
  function SpacePrefix(s: string): (r: string)
    ensures |r| <= |s| && r == s[..|r|]
    ensures forall i :: 0 <= i < |r| ==> IsSpace(r[i])
    ensures |r| < |s| ==> !IsSpace(s[|r|])
  {
    if s != [] && IsSpace(s[0]) then [s[0]] + SpacePrefix(s[1..]) else []
  }

  /** The text a directive would take at the start of `s`. */
  function Token(d: Directive, s: string): (tok: string)
    ensures |tok| <= |s| && tok == s[..|tok|]
  {
    if d == Day && s != [] && s[0] == ' ' then [' '] + DigitPrefix(s[1..]) else DigitPrefix(s)
  }

  /** A one- or two-digit number in `lo..hi`. */
  function ShortNumber(tok: string, lo: int, hi: int): (r: Option<int>)
    ensures r.Some? ==> lo <= r.value <= hi
  {
    if 1 <= |tok| <= 2 && AllDigits(tok) && lo <= DigitsValue(tok) <= hi then Some(DigitsValue(tok)) else None
  }

  /** The number a token stands for, when the directive's pattern accepts it. */
  function TokenValue(d: Directive, tok: string): Option<int> {
    match d
    case Year4 => if |tok| == 4 && AllDigits(tok) then Some(DigitsValue(tok)) else None
    case Year2 => if |tok| == 2 && AllDigits(tok) then Some(DigitsValue(tok)) else None
    case Month => ShortNumber(tok, 1, 12)
    case Day =>
      if |tok| == 2 && tok[0] == ' ' then ShortNumber(tok[1..], 1, 9) else ShortNumber(tok, 1, 31)
    case Hour => ShortNumber(tok, 0, 23)
    case Minute => ShortNumber(tok, 0, 59)
    case Second => ShortNumber(tok, 0, 61)
  }

  /** Two-digit years 00..68 are read as 2000..2068 and 69..99 as 1969..1999. */
  function PivotYear(v: int): int {
    if v <= 68 then 2000 + v else 1900 + v
  }

  function Assign(f: Fields, d: Directive, v: int): Fields {
    match d
    case Year4 => f.(year := v)
    case Year2 => f.(year := PivotYear(v))
    case Month => f.(month := v)
    case Day => f.(day := v)
    case Hour => f.(hour := v)
    case Minute => f.(minute := v)
    case Second => f.(second := v)
  }

  /** Matches the whole of `s` against `fmt`, collecting the fields into `acc`. */
  function Match(fmt: Format, s: string, acc: Fields): Option<Fields>
    decreases |fmt|
  {
    if fmt == [] then (if s == [] then Some(acc) else None)
    else
      match fmt[0]
      case Lit(c) =>
        if s != [] && LowerChar(s[0]) == LowerChar(c) then Match(fmt[1..], s[1..], acc) else None
      case Blank =>
        var n := |SpacePrefix(s)|;
        if n == 0 then None else Match(fmt[1..], s[n..], acc)
      case Field(d) =>
        var tok := Token(d, s);
        match TokenValue(d, tok)
        case None => None
        case Some(v) => Match(fmt[1..], s[|tok|..], Assign(acc, d, v))
  }

  predicate ValidFields(f: Fields) {
    ValidDate(Date(f.year, f.month, f.day)) && ValidTime(Time(f.hour, f.minute, f.second))
  }

  /**
   * `datetime.strptime(s, fmt)`: `None` stands for the `ValueError` it raises.
   * A successful parse always denotes a real date and time.
   */
  function Parse(fmt: Format, s: string): (r: Option<Fields>)
    ensures r.Some? ==> ValidFields(r.value)
  {
    match Match(fmt, s, Defaults)
    case Some(f) => if ValidFields(f) then Some(f) else None
    case None => None
  }

  function DateOf(f: Fields): CivilDate
    requires ValidFields(f)
  {
    Date(f.year, f.month, f.day)
  }

  function TimeOf(f: Fields): ClockTime
    requires ValidFields(f)
  {
    Time(f.hour, f.minute, f.second)
  }

  // ---------------------------------------------------------------- stepping lemmas

  lemma {:induction false} MatchLit(c: char, x: char, rest: string, fmt: Format, acc: Fields)
    requires LowerChar(x) == LowerChar(c)
    ensures Match([Lit(c)] + fmt, [x] + rest, acc) == Match(fmt, rest, acc)
  {
    assert ([Lit(c)] + fmt)[1..] == fmt;
    assert ([x] + rest)[1..] == rest;
  }

  lemma {:induction false} MatchField(d: Directive, tok: string, rest: string, fmt: Format, acc: Fields)
    requires tok != [] && AllDigits(tok)
    requires rest != [] ==> !IsAsciiDigit(rest[0])
    ensures Match([Field(d)] + fmt, tok + rest, acc)
         == match TokenValue(d, tok)
            case None => None
            case Some(v) => Match(fmt, rest, Assign(acc, d, v))
  {
    assert ([Field(d)] + fmt)[1..] == fmt;
    DigitPrefixOfConcat(tok, rest);
    assert Token(d, tok + rest) == tok;
    assert (tok + rest)[|tok|..] == rest;
  }

  lemma {:induction false} MatchBlank(sp: string, rest: string, fmt: Format, acc: Fields)
    requires sp != [] && forall i :: 0 <= i < |sp| ==> IsSpace(sp[i])
    requires rest != [] ==> !IsSpace(rest[0])
    ensures Match([Blank] + fmt, sp + rest, acc) == Match(fmt, rest, acc)
  {
    assert ([Blank] + fmt)[1..] == fmt;
    SpacePrefixOfConcat(sp, rest);
    assert (sp + rest)[|sp|..] == rest;
  }

  lemma {:induction false} SpacePrefixOfConcat(a: string, b: string)
    requires forall i :: 0 <= i < |a| ==> IsSpace(a[i])
    requires b != [] ==> !IsSpace(b[0])
    ensures SpacePrefix(a + b) == a
  {
    if a != [] {
      assert (a + b)[1..] == a[1..] + b;
      SpacePrefixOfConcat(a[1..], b);
    }
  }

  lemma {:induction false} TwoDigitValue(n: nat, lo: int, hi: int)
    requires n < 100 && lo <= n <= hi
    ensures ShortNumber(Pad2(n), lo, hi) == Some(n)
  {
  }
}
