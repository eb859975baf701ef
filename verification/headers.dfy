/**
 * Header canonicalisation (`snake_case`, app.py:87-104): decompose, drop
 * combining marks, turn each run of whitespace or hyphens into one `_`, keep
 * only `[A-Za-z0-9_]`, lower-case.
 */
module Headers {
  import opened Strings
  import opened Unicode

  /** The class `[\s\-]`. */
  predicate IsSeparator(c: char) {
    IsSpace(c) || c == '-'
  }

  /** The class `[a-zA-Z0-9_]`. */
  predicate IsWordChar(c: char) {
    IsAsciiUpper(c) || IsAsciiLower(c) || IsAsciiDigit(c) || c == '_'
  }

  /** The characters a canonical header is made of: `[a-z0-9_]`. */
  predicate IsSnakeChar(c: char) {
    IsAsciiLower(c) || IsAsciiDigit(c) || c == '_'
  }

  predicate IsSnake(s: string) {
    forall i :: 0 <= i < |s| ==> IsSnakeChar(s[i])
  }

  /** Drops the run of separators at the start of `s`. */
  function SkipSeparators(s: string): (r: string)
    ensures |r| <= |s| && r == s[|s| - |r|..]
    ensures r != [] ==> !IsSeparator(r[0])
  {
    if s != [] && IsSeparator(s[0]) then SkipSeparators(s[1..]) else s
  }

  /** `re.sub(r'[\s\-]+', '_', s)`: no separator survives. */
  function CollapseSeparators(s: string): (r: string)
    ensures forall i :: 0 <= i < |r| ==> !IsSeparator(r[i])
    decreases |s|
  {
    if s == [] then []
    else if IsSeparator(s[0]) then "_" + CollapseSeparators(SkipSeparators(s[1..]))
    else [s[0]] + CollapseSeparators(s[1..])
  }

  /** `snake_case(text)`; the empty (falsy) header is returned as it is. */
  function SnakeCase(text: string): (r: string)
    ensures text == [] ==> r == []
    ensures IsSnake(r)
  {
    if text == [] then text
    else LowerAscii(Filter(CollapseSeparators(DropMarks(Nfd(text))), IsWordChar))
  }

  // ---------------------------------------------------------------- properties

  lemma {:induction false} CollapseNoop(s: string)
    requires forall i :: 0 <= i < |s| ==> !IsSeparator(s[i])
    ensures CollapseSeparators(s) == s
  {
    if s != [] {
      CollapseNoop(s[1..]);
    }
  }

  /** A canonical header is exactly a string over `[a-z0-9_]`: those are the fixed points. */
  lemma {:induction false} SnakeCaseFixedPoint(s: string)
    ensures SnakeCase(s) == s <==> IsSnake(s)
  {
    if IsSnake(s) && s != [] {
      assert forall i :: 0 <= i < |s| ==> Decomposition(s[i]).None? by {
        forall i | 0 <= i < |s| {
          AsciiDoesNotDecompose(s[i]);
        }
      }
      NfdOfDecomposed(s);
      assert DropMarks(s) == s;
      CollapseNoop(s);
      assert Filter(s, IsWordChar) == s;
      assert LowerAscii(s) == s;
    }
  }

  /** Canonicalising twice is canonicalising once. */
  lemma {:induction false} SnakeCaseIdempotent(text: string)
    ensures SnakeCase(SnakeCase(text)) == SnakeCase(text)
  {
    SnakeCaseFixedPoint(SnakeCase(text));
  }

  /** ASCII letters and digits only. */
  predicate IsAlnum(s: string) {
    forall i :: 0 <= i < |s| ==> IsAsciiUpper(s[i]) || IsAsciiLower(s[i]) || IsAsciiDigit(s[i])
  }

  /**
   * A space becomes `_` but an apostrophe is dropped: "Date d'achat" becomes
   * "date_dachat", not "date_d_achat".
   */
  lemma {:induction false} SnakeCaseApostrophe(w: string, x: string, y: string)
    requires w != [] && IsAlnum(w) && IsAlnum(x) && IsAlnum(y)
    ensures SnakeCase(w + " " + x + "'" + y) == LowerAscii(w) + "_" + LowerAscii(x + y)
  {
    var s := w + " " + x + "'" + y;
    var a := w + "_" + x;
    ApostropheCollapse(w, x, y);
    ApostropheFilter(a, y);
    AsciiSnakeCase(s);
    ApostropheLower(w, x, y);
  }

  lemma {:induction false} ApostropheCollapse(w: string, x: string, y: string)
    requires IsAlnum(w) && IsAlnum(x) && IsAlnum(y)
    ensures forall i :: 0 <= i < |w + " " + x + "'" + y| ==> (w + " " + x + "'" + y)[i] < '\U{0080}'
    ensures CollapseSeparators(w + " " + x + "'" + y) == (w + "_" + x) + "'" + y
  {
    var s := w + " " + x + "'" + y;
    assert s == w + [' '] + (x + "'" + y);
    CollapseOneSeparator(w, ' ', x + "'" + y);
  }

  lemma {:induction false} ApostropheFilter(a: string, y: string)
    requires forall i :: 0 <= i < |a| ==> IsWordChar(a[i])
    requires IsAlnum(y)
    ensures Filter(a + "'" + y, IsWordChar) == a + y
  {
    FilterDropOne(a, '\'', y, IsWordChar);
  }

  lemma {:induction false} ApostropheLower(w: string, x: string, y: string)
    ensures LowerAscii((w + "_" + x) + y) == LowerAscii(w) + "_" + LowerAscii(x + y)
  {
    assert (w + "_" + x) + y == (w + "_") + (x + y);
    LowerAsciiAppend(w + "_", x + y);
    LowerAsciiAppend(w, "_");
  }

  /** On ASCII text, NFD and mark removal do nothing. */
  lemma {:induction false} AsciiSnakeCase(s: string)
    requires s != [] && forall i :: 0 <= i < |s| ==> s[i] < '\U{0080}'
    ensures SnakeCase(s) == LowerAscii(Filter(CollapseSeparators(s), IsWordChar))
  {
    AsciiNfd(s);
    assert DropMarks(s) == s;
  }

  lemma {:induction false} LowerAsciiAppend(a: string, b: string)
    ensures LowerAscii(a + b) == LowerAscii(a) + LowerAscii(b)
  {
  }

  /** One separator between two separator-free words becomes `_`. */
  lemma {:induction false} CollapseOneSeparator(w: string, c: char, rest: string)
    requires forall i :: 0 <= i < |w| ==> !IsSeparator(w[i])
    requires IsSeparator(c)
    requires forall i :: 0 <= i < |rest| ==> !IsSeparator(rest[i])
    ensures CollapseSeparators(w + [c] + rest) == w + "_" + rest
  {
    var tail := [c] + rest;
    assert w + [c] + rest == w + tail;
    CollapseWordThen(w, tail);
    assert tail[1..] == rest;
    assert SkipSeparators(rest) == rest by {
      assert rest == [] || !IsSeparator(rest[0]);
    }
    CollapseNoop(rest);
    assert CollapseSeparators(tail) == "_" + rest;
    assert w + ("_" + rest) == w + "_" + rest;
  }

  /** Accents are removed: "Prénom" becomes "prenom". */
  lemma {:induction false} SnakeCaseAccent(x: string, y: string)
    requires IsAlnum(x) && IsAlnum(y)
    ensures SnakeCase(x + "\U{00E9}" + y) == LowerAscii(x) + "e" + LowerAscii(y)
  {
    var text := x + "\U{00E9}" + y;
    var plain := x + "e" + y;
    assert DropMarks(Nfd(text)) == plain by {
      AccentNfd(x, y);
      AccentDropMarks(x, y);
    }
    assert SnakeCase(text) == LowerAscii(plain) by {
      AlnumPipeline(plain);
    }
    assert LowerAscii(plain) == LowerAscii(x) + "e" + LowerAscii(y) by {
      LowerAsciiAppend(x + "e", y);
      LowerAsciiAppend(x, "e");
      assert LowerAscii("e") == "e";
    }
  }

  lemma {:induction false} AccentNfd(x: string, y: string)
    requires IsAlnum(x) && IsAlnum(y)
    ensures Nfd(x + "\U{00E9}" + y) == (x + "e") + [Acute] + y
  {
    var accented := "\U{00E9}";
    assert Nfd(accented) == "e" + [Acute] by {
      NfdOfChar('\U{00E9}');
    }
    assert Nfd(x + accented) == x + ("e" + [Acute]) by {
      NfdAppend(x, accented);
      AsciiNfd(x);
    }
    assert Nfd(x + accented + y) == x + ("e" + [Acute]) + y by {
      NfdAppend(x + accented, y);
      AsciiNfd(y);
    }
    assert x + ("e" + [Acute]) + y == (x + "e") + [Acute] + y;
  }

  lemma {:induction false} NfdOfChar(c: char)
    ensures Nfd([c]) == DecomposeChar(c)
  {
    assert [c][1..] == [];
  }

  lemma {:induction false} AccentDropMarks(x: string, y: string)
    requires IsAlnum(x) && IsAlnum(y)
    ensures DropMarks((x + "e") + [Acute] + y) == x + "e" + y
  {
    FilterDropOne(x + "e", Acute, y, c => !IsMark(c));
  }

  /** Letters and digits only: canonicalising just lower-cases. */
  lemma {:induction false} AlnumSnakeCase(s: string)
    requires IsAlnum(s)
    ensures SnakeCase(s) == LowerAscii(s)
  {
    if s != [] {
      AsciiSnakeCase(s);
      AlnumPipeline(s);
    }
  }

  lemma {:induction false} AlnumPipeline(s: string)
    requires IsAlnum(s)
    ensures LowerAscii(Filter(CollapseSeparators(s), IsWordChar)) == LowerAscii(s)
  {
    CollapseNoop(s);
    assert Filter(s, IsWordChar) == s;
  }

  /** A word without separators passes through the collapse unchanged. */
  lemma {:induction false} CollapseWordThen(w: string, rest: string)
    requires forall i :: 0 <= i < |w| ==> !IsSeparator(w[i])
    ensures CollapseSeparators(w + rest) == w + CollapseSeparators(rest)
  {
    if w != [] {
      assert (w + rest)[1..] == w[1..] + rest;
      CollapseWordThen(w[1..], rest);
    } else {
      assert w + rest == rest;
    }
  }
}
