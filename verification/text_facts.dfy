/**
 * What `clean_text` (app.py:241-259) does to ordinary text: printable ASCII
 * without surrounding blanks passes unchanged, accents are removed, and
 * because trimming comes before control characters are removed, a control
 * character at the edge keeps the blank behind it, so cleaning twice can
 * differ from cleaning once.
 */
module TextFacts {
  import opened Strings
  import opened Wrappers
  import opened Unicode
  import opened Cells
  import opened Cleaning
  import opened Headers

  /** Printable ASCII: U+0020..U+007E. */
  predicate PlainAscii(s: string) {
    forall i :: 0 <= i < |s| ==> ' ' <= s[i] < '\U{007F}'
  }

  /** ASCII text has nothing to decompose and no mark to drop. */
  lemma {:induction false} AsciiUnmarked(s: string)
    requires forall i :: 0 <= i < |s| ==> s[i] < '\U{0080}'
    ensures DropMarks(Nfd(s)) == s
  {
    AsciiNfd(s);
    assert forall i :: 0 <= i < |s| ==> !IsMark(s[i]);
  }

  /** `clean_text` step by step: trimmed, then unmarked, then filtered, and something is left. */
  lemma {:induction false} CleanTextBy(v: Cell, trimmed: string, plain: string, t: string)
    requires !IsNA(v) && Strip(Text(v)) == trimmed
    requires DropMarks(Nfd(trimmed)) == plain
    requires Filter(plain, IsPrintable) == t && t != []
    ensures CleanText(v) == Some(t)
  {
  }

  /** Printable ASCII without blanks at either end is already clean. */
  lemma {:induction false} CleanTextPlain(s: string)
    requires s != [] && PlainAscii(s) && !IsSpace(s[0]) && !IsSpace(s[|s| - 1])
    ensures CleanText(Str(s)) == Some(s)
  {
    StripNoop(s);
    PlainUnchanged(s);
    CleanTextBy(Str(s), s, s, s);
  }

  /** Accents are removed: "Prénom" is cleaned to "Prenom". */
  lemma {:induction false} CleanTextAccent(x: string, y: string)
    requires x != [] && y != [] && IsAlnum(x) && IsAlnum(y)
    ensures CleanText(Str(x + "\U{00E9}" + y)) == Some(x + "e" + y)
  {
    var s := x + "\U{00E9}" + y;
    AccentTrimmed(x, y);
    AccentUnmarked(x, y);
    var plain := x + "e" + y;
    AccentPrintable(x, y);
    CleanTextBy(Str(s), s, plain, plain);
  }

  lemma {:induction false} AccentPrintable(x: string, y: string)
    requires IsAlnum(x) && IsAlnum(y)
    ensures Filter(x + "e" + y, IsPrintable) == x + "e" + y
  {
    var plain := x + "e" + y;
    assert forall i :: 0 <= i < |plain| ==> IsPrintable(plain[i]);
  }

  lemma {:induction false} AccentTrimmed(x: string, y: string)
    requires x != [] && y != [] && IsAlnum(x) && IsAlnum(y)
    ensures Strip(x + "\U{00E9}" + y) == x + "\U{00E9}" + y
  {
    var s := x + "\U{00E9}" + y;
    assert s[0] == x[0] && s[|s| - 1] == y[|y| - 1];
    StripNoop(s);
  }

  lemma {:induction false} AccentUnmarked(x: string, y: string)
    requires IsAlnum(x) && IsAlnum(y)
    ensures DropMarks(Nfd(x + "\U{00E9}" + y)) == x + "e" + y
  {
    AccentNfd(x, y);
    AccentDropMarks(x, y);
  }

  /**
   * Trimming happens before control characters are removed: in
   * "\x01 word" the control character shields the blank from the trim, and
   * the blank survives into the result. Cleaning that result again trims it.
   */
  lemma {:induction false} CleanTextTrimsFirst(w: string)
    requires w != [] && PlainAscii(w) && !IsSpace(w[0]) && !IsSpace(w[|w| - 1])
    ensures CleanText(Str("\U{0001} " + w)) == Some(" " + w)
    ensures CleanText(Str(" " + w)) == Some(w)
  {
    ControlShieldsBlank(w);
    LeadingBlankTrimmed(w);
  }

  lemma {:induction false} ControlShieldsBlank(w: string)
    requires w != [] && PlainAscii(w) && !IsSpace(w[|w| - 1])
    ensures CleanText(Str("\U{0001} " + w)) == Some(" " + w)
  {
    var s := "\U{0001} " + w;
    ControlTextTrimmed(w);
    ControlTextUnmarked(w);
    ControlDropped(w);
    CleanTextBy(Str(s), s, s, " " + w);
  }

  lemma {:induction false} ControlTextTrimmed(w: string)
    requires w != [] && !IsSpace(w[|w| - 1])
    ensures Strip("\U{0001} " + w) == "\U{0001} " + w
  {
    var s := "\U{0001} " + w;
    assert s[|s| - 1] == w[|w| - 1];
    StripNoop(s);
  }

  lemma {:induction false} ControlTextUnmarked(w: string)
    requires PlainAscii(w)
    ensures DropMarks(Nfd("\U{0001} " + w)) == "\U{0001} " + w
  {
    AsciiUnmarked("\U{0001} " + w);
  }

  lemma {:induction false} ControlDropped(w: string)
    requires PlainAscii(w)
    ensures Filter("\U{0001} " + w, IsPrintable) == " " + w
  {
    assert "\U{0001} " + w == [] + ['\U{0001}'] + (" " + w);
    FilterDropOne([], '\U{0001}', " " + w, IsPrintable);
    assert [] + (" " + w) == " " + w;
  }

  lemma {:induction false} LeadingBlankTrimmed(w: string)
    requires w != [] && PlainAscii(w) && !IsSpace(w[0]) && !IsSpace(w[|w| - 1])
    ensures CleanText(Str(" " + w)) == Some(w)
  {
    LeadingBlankStrip(w);
    PlainUnchanged(w);
    CleanTextBy(Str(" " + w), w, w, w);
  }

  lemma {:induction false} LeadingBlankStrip(w: string)
    requires w != [] && !IsSpace(w[0]) && !IsSpace(w[|w| - 1])
    ensures Strip(" " + w) == w
  {
    var s := " " + w;
    assert s[0] == ' ' && s[1..] == w;
    assert TrimStart(s) == TrimStart(w);
    StripNoop(w);
  }

  /** Printable ASCII goes through decomposition, mark removal and the control filter unchanged. */
  lemma {:induction false} PlainUnchanged(w: string)
    requires PlainAscii(w)
    ensures DropMarks(Nfd(w)) == w
    ensures Filter(w, IsPrintable) == w
  {
    AsciiUnmarked(w);
    assert forall i :: 0 <= i < |w| ==> IsPrintable(w[i]);
  }
}
