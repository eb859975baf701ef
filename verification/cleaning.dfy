/**
 * The two cell cleaners that do not involve dates: `clean_number`
 * (app.py:107-147) and `clean_text` (app.py:241-259). Both are total and
 * report failure as None.
 */
module Cleaning {
  import opened Strings
  import opened Wrappers
  import opened Unicode
  import opened Decimals
  import opened Cells

  // ---------------------------------------------------------------- clean_number

  /** The class `[€$£¥]`. */
  predicate IsCurrency(c: char) {
    c == '\U{20AC}' || c == '$' || c == '\U{00A3}' || c == '\U{00A5}'
  }

  /** Removes no-break spaces, spaces and currency symbols, in that order. */
  function Unformat(s: string): (r: string)
    ensures forall i :: 0 <= i < |r| ==> r[i] != '\U{00A0}' && r[i] != ' ' && !IsCurrency(r[i])
  {
    var once := RemoveChar(s, '\U{00A0}');
    var twice := RemoveChar(once, ' ');
    FilterKeeps(once, c => c != ' ', c => c != '\U{00A0}');
    FilterKeeps(twice, c => !IsCurrency(c), c => c != '\U{00A0}' && c != ' ');
    Filter(twice, c => !IsCurrency(c))
  }

  /**
   * The separator rewrite: when both separators occur and the first comma
   * precedes the first dot, or when only commas occur, every comma becomes a
   * dot; otherwise the string is kept. Only commas ever change.
   */
  function Separators(t: string): (r: string)
    ensures |r| == |t|
    ensures forall i :: 0 <= i < |t| ==> r[i] == t[i] || (t[i] == ',' && r[i] == '.')
    ensures ',' in t && '.' !in t ==> ',' !in r
  {
    if ',' in t && '.' in t then
      if IndexOf(t, ',') < IndexOf(t, '.') then ReplaceChar(t, ',', '.') else t
    else if ',' in t then ReplaceChar(t, ',', '.')
    else t
  }

  /**
   * `clean_number(v)`: None for a missing value, the value itself for a
   * number, and otherwise `float()` of the text once it is trimmed, stripped
   * of spaces and currency symbols and has had its separators rewritten.
   */
  function CleanNumber(v: Cell): (r: Option<Decimal>)
    ensures IsNA(v) ==> r.None?
    ensures !IsNA(v) && IsNumeric(v) ==> r == Some(NumberValue(v))
    ensures !IsNumeric(v) && Strip(Text(v)) == [] ==> r.None?
    ensures !IsNumeric(v) && r.Some? ==> Canonical(r.value)
    ensures !IsNA(v) && !IsNumeric(v) && Strip(Text(v)) != [] ==>
      r == ParseFloat(Separators(Unformat(Strip(Text(v)))))
  {
    if IsNA(v) then None
    else if IsNumeric(v) then Some(NumberValue(v))
    else
      var s := Strip(Text(v));
      if s == [] then None else ParseFloat(Separators(Unformat(s)))
  }

  // ---------------------------------------------------------------- clean_text

  /** `ord(c) >= 32`. */
  predicate IsPrintable(c: char) {
    c as int >= 32
  }

  /**
   * `clean_text(v)`: None for a missing value; otherwise `str(v)` trimmed,
   * decomposed, without marks and without control characters, and None when
   * nothing is left.
   */
  function CleanText(v: Cell): (r: Option<string>)
    ensures IsNA(v) ==> r.None?
    ensures r.Some? ==> r.value != []
    ensures r.Some? ==> forall i :: 0 <= i < |r.value| ==> IsPrintable(r.value[i]) && !IsMark(r.value[i])
  {
    if IsNA(v) then None
    else
      var t := Filter(DropMarks(Nfd(Strip(Text(v)))), IsPrintable);
      assert forall i :: 0 <= i < |t| ==> !IsMark(t[i]) by {
        FilterKeeps(DropMarks(Nfd(Strip(Text(v)))), IsPrintable, c => !IsMark(c));
      }
      if t == [] then None else Some(t)
  }
}
