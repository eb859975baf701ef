/**
 * What `clean_number` (app.py:107-147) accepts and rejects: which separator
 * layouts survive the rewrite, what French and plain formats read as, and
 * agreement between an integer and its text.
 */
module NumberFacts {
  import opened Strings
  import opened Wrappers
  import opened Decimals
  import opened Cells
  import opened Cleaning

  // ---------------------------------------------------------------- what float() accepts

  /** A literal `float()` accepts never holds a comma and holds at most one dot. */
  lemma {:induction false} ParseFloatCharacters(s: string)
    requires ParseFloat(s).Some?
    ensures ',' !in s && multiset(s)['.'] <= 1
  {
    var t := Strip(s);
    SignedCharacters(t);
    StripCount(s, ',');
    StripCount(s, '.');
  }

  /** Trimming removes only whitespace, so it keeps every other character's count. */
  lemma {:induction false} StripCount(s: string, c: char)
    requires !IsSpace(c)
    ensures multiset(Strip(s))[c] == multiset(s)[c]
  {
    TrimStartCount(s, c);
    TrimEndCount(TrimStart(s), c);
  }

  lemma {:induction false} TrimStartCount(s: string, c: char)
    requires !IsSpace(c)
    ensures multiset(TrimStart(s))[c] == multiset(s)[c]
  {
    if s != [] && IsSpace(s[0]) {
      var t := s[1..];
      assert TrimStart(s) == TrimStart(t);
      TrimStartCount(t, c);
      DropFirstCount(s, c);
    }
  }

  /** Dropping a first character other than `c` keeps the count of `c`. */
  lemma {:induction false} DropFirstCount(s: string, c: char)
    requires s != [] && s[0] != c
    ensures multiset(s[1..])[c] == multiset(s)[c]
  {
    assert s == [s[0]] + s[1..];
    assert multiset(s) == multiset([s[0]]) + multiset(s[1..]);
  }

  lemma {:induction false} TrimEndCount(s: string, c: char)
    requires !IsSpace(c)
    ensures multiset(TrimEnd(s))[c] == multiset(s)[c]
  {
    if s != [] && IsSpace(s[|s| - 1]) {
      var init := s[..|s| - 1];
      TrimEndCount(init, c);
      assert s == init + [s[|s| - 1]];
      assert multiset(s) == multiset(init) + multiset([s[|s| - 1]]);
    }
  }

  lemma {:induction false} SignedCharacters(t: string)
    requires ParseSigned(t).Some?
    ensures ',' !in t && multiset(t)['.'] <= 1
  {
    var signed := t != [] && (t[0] == '+' || t[0] == '-');
    var u := if signed then t[1..] else t;
    assert MantissaValue(SplitMantissa(u)).Some?;
    MantissaCharacters(u);
    if signed {
      SignCharacters(t);
    }
  }

  /** A sign adds neither a comma nor a dot. */
  lemma {:induction false} SignCharacters(t: string)
    requires t != [] && (t[0] == '+' || t[0] == '-')
    requires ',' !in t[1..] && multiset(t[1..])['.'] <= 1
    ensures ',' !in t && multiset(t)['.'] <= 1
  {
    assert t == [t[0]] + t[1..];
    assert multiset(t) == multiset([t[0]]) + multiset(t[1..]);
  }

  lemma {:induction false} MantissaCharacters(u: string)
    requires MantissaValue(SplitMantissa(u)).Some?
    ensures ',' !in u && multiset(u)['.'] <= 1
  {
    var m := SplitMantissa(u);
    DigitsHaveNoSeparator(m.whole);
    DigitsHaveNoSeparator(m.frac);
    assert ParseExponent(m.tail).Some?;
    assert '.' !in m.tail && ',' !in m.tail;
    if m.point {
      assert multiset(u) == multiset(m.whole) + multiset(".") + multiset(m.frac) + multiset(m.tail);
    } else {
      assert multiset(u) == multiset(m.whole) + multiset(m.tail);
    }
  }

  lemma {:induction false} DigitsHaveNoSeparator(w: string)
    requires AllDigits(w)
    ensures ',' !in w && '.' !in w
  {
  }

  /** Two different positions holding `c` make it occur at least twice. */
  lemma {:induction false} TwoOccurrences(s: string, i: int, j: int, c: char)
    requires 0 <= i < j < |s| && s[i] == c && s[j] == c
    ensures multiset(s)[c] >= 2
  {
    assert s == s[..j] + s[j..];
    assert s[..j][i] == c;
    assert s[j..][0] == c;
    assert c in multiset(s[..j]) && c in multiset(s[j..]);
  }

  // ---------------------------------------------------------------- separators

  /**
   * Once both separators occur, no rewrite yields a number: comma first gives
   * two dots, dot first keeps the comma. "1,000.50" and "1.234,56" are both None.
   */
  lemma {:induction false} MixedSeparatorsRejected(t: string)
    requires ',' in t && '.' in t
    ensures ParseFloat(Separators(t)).None?
  {
    var r := Separators(t);
    var i, j := IndexOf(t, ','), IndexOf(t, '.');
    if i < j {
      TwoOccurrences(r, i, j, '.');
    } else {
      assert r == t;
    }
    if ParseFloat(r).Some? {
      ParseFloatCharacters(r);
    }
  }

  lemma {:induction false} CleanNumberMixedSeparators(s: string)
    requires ',' in Unformat(Strip(s)) && '.' in Unformat(Strip(s))
    ensures CleanNumber(Str(s)).None?
  {
    MixedSeparatorsRejected(Unformat(Strip(s)));
  }

  // ---------------------------------------------------------------- accepted layouts

  /** `float("<a>.<c>")` for digit strings: the digits of `a` and `c` over 10^|c|. */
  lemma ParseFloatDecimal(a: string, c: string)
    requires a != [] && AllDigits(a) && AllDigits(c)
    ensures ParseFloat(a + "." + c) == Some(Normalize(Decimal(DigitsValue(a + c), -|c|)))
  {
    var s := a + "." + c;
    assert Strip(s) == s by {
      assert s[0] == a[0];
      assert s[|s| - 1] == '.' || s[|s| - 1] == c[|c| - 1];
      StripPlain(s);
    }
    SignedDecimal(a, c);
  }

  lemma {:induction false} SignedDecimal(a: string, c: string)
    requires a != [] && AllDigits(a) && AllDigits(c)
    ensures ParseSigned(a + "." + c) == Some(Normalize(Decimal(DigitsValue(a + c), -|c|)))
  {
    var s := a + "." + c;
    assert s[0] == a[0];
    var m := SplitMantissa(s);
    assert m == Mantissa(a, true, c, []) by {
      SplitDecimal(a, c);
    }
    var d := Decimal(DigitsValue(a + c), -|c|);
    assert MantissaValue(m) == Some(d) by {
      assert ParseExponent([]) == Some(0);
    }
    assert !(s[0] == '+' || s[0] == '-');
  }

  /** A string that starts with a digit and ends with a digit or dot is already trimmed. */
  lemma {:induction false} StripPlain(s: string)
    requires s != [] && IsAsciiDigit(s[0])
    requires IsAsciiDigit(s[|s| - 1]) || s[|s| - 1] == '.' || s[|s| - 1] == ','
    ensures Strip(s) == s
  {
    StripNoop(s);
  }

  lemma {:induction false} SplitDecimal(a: string, c: string)
    requires AllDigits(a) && AllDigits(c)
    ensures SplitMantissa(a + "." + c) == Mantissa(a, true, c, [])
  {
    var s := a + "." + c;
    assert s == a + ("." + c);
    DigitPrefixOfConcat(a, "." + c);
    assert s[|a|..] == "." + c;
    assert s[|a|..][1..] == c;
    DigitPrefixOfConcat(c, []);
    assert c + [] == c;
  }

  /** `float("<a>")` for a digit string. */
  lemma {:induction false} ParseFloatWhole(a: string)
    requires a != [] && AllDigits(a)
    ensures ParseFloat(a) == Some(Normalize(Decimal(DigitsValue(a), 0)))
  {
    assert Strip(a) == a by {
      StripPlain(a);
    }
    SignedWhole(a);
  }

  lemma {:induction false} SignedWhole(a: string)
    requires a != [] && AllDigits(a)
    ensures ParseSigned(a) == Some(Normalize(Decimal(DigitsValue(a), 0)))
  {
    SplitWhole(a);
    MantissaWhole(a);
    assert !(a[0] == '+' || a[0] == '-');
  }

  lemma {:induction false} MantissaWhole(a: string)
    requires a != [] && AllDigits(a)
    requires SplitMantissa(a) == Mantissa(a, false, [], [])
    ensures MantissaValue(SplitMantissa(a)) == Some(Decimal(DigitsValue(a), 0))
  {
    assert ParseExponent([]) == Some(0);
    assert a + [] == a;
  }

  lemma {:induction false} SplitWhole(a: string)
    requires AllDigits(a)
    ensures SplitMantissa(a) == Mantissa(a, false, [], [])
  {
    DigitPrefixOfConcat(a, []);
    assert a + [] == a;
  }

  /** A leading minus negates. */
  lemma {:induction false} ParseSignedNegative(u: string)
    requires u != [] && AllDigits(u)
    ensures ParseSigned("-" + u) == Some(Normalize(Decimal(-(DigitsValue(u) as int), 0)))
  {
    WholeMantissa(u);
    SignedNegative(u, Decimal(DigitsValue(u), 0));
  }

  lemma {:induction false} WholeMantissa(a: string)
    requires a != [] && AllDigits(a)
    ensures MantissaValue(SplitMantissa(a)) == Some(Decimal(DigitsValue(a), 0))
  {
    SplitWhole(a);
    MantissaWhole(a);
  }

  lemma {:induction false} DropSign(u: string)
    ensures ("-" + u)[0] == '-' && ("-" + u)[1..] == u
  {
  }

  lemma {:induction false} SignedNegative(u: string, d: Decimal)
    requires MantissaValue(SplitMantissa(u)) == Some(d)
    ensures ParseSigned("-" + u) == Some(Normalize(Decimal(-d.coef, d.exp)))
  {
    DropSign(u);
  }

  /** Text without spaces, currency symbols or separators passes the rewrite unchanged. */
  lemma {:induction false} PlainText(t: string)
    requires forall i :: 0 <= i < |t| ==> IsAsciiDigit(t[i]) || t[i] == '-'
    ensures Separators(Unformat(t)) == t
  {
    var once := RemoveChar(t, '\U{00A0}');
    assert once == t;
    var twice := RemoveChar(once, ' ');
    assert twice == t;
    assert Filter(twice, c => !IsCurrency(c)) == t;
    assert ',' !in t;
  }

  /** A non-blank string already trimmed: clean_number goes straight to the rewrite and float(). */
  lemma {:induction false} CleanNumberTrimmed(s: string)
    requires s != [] && Strip(s) == s
    ensures CleanNumber(Str(s)) == ParseFloat(Separators(Unformat(s)))
  {
    var v := Str(s);
    assert Text(v) == s;
    CleanNumberOfText(v, s);
  }

  /** A value that is neither missing nor a number is read from its trimmed text. */
  lemma {:induction false} CleanNumberOfText(v: Cell, s: string)
    requires !IsNA(v) && !IsNumeric(v) && Strip(Text(v)) == s && s != []
    ensures CleanNumber(v) == ParseFloat(Separators(Unformat(s)))
  {
  }

  /** An integer read from its own text is the integer: "42" and 42 clean alike. */
  lemma {:induction false} CleanNumberIntText(n: int)
    ensures CleanNumber(Str(IntToString(n))) == CleanNumber(Int(n))
  {
    var d := FromInt(n);
    var s := IntToString(n);
    assert Strip(s) == s && Separators(Unformat(s)) == s by {
      IntTextCharacters(n);
      StripNoop(s);
      PlainText(s);
    }
    assert CleanNumber(Str(s)) == Some(d) by {
      IntTextSigned(n);
      CleanNumberSignedText(s, d);
    }
    CleanNumberInt(n);
  }

  lemma {:induction false} CleanNumberInt(n: int)
    ensures CleanNumber(Int(n)) == Some(FromInt(n))
  {
  }

  /** A trimmed text the rewrite leaves alone is read as `float()` reads it. */
  lemma {:induction false} CleanNumberSignedText(s: string, d: Decimal)
    requires s != [] && Strip(s) == s && Separators(Unformat(s)) == s
    requires ParseSigned(s) == Some(d)
    ensures CleanNumber(Str(s)) == Some(d)
  {
    CleanNumberTrimmed(s);
  }

  lemma {:induction false} IntTextCharacters(n: int)
    ensures forall i :: 0 <= i < |IntToString(n)| ==> IsAsciiDigit(IntToString(n)[i]) || IntToString(n)[i] == '-'
  {
  }

  /** `float(str(n)) == float(n)`. */
  lemma {:induction false} IntTextSigned(n: int)
    ensures ParseSigned(IntToString(n)) == Some(FromInt(n))
  {
    if n < 0 {
      var u := NatToString(-n);
      assert IntToString(n) == "-" + u;
      assert -(DigitsValue(u) as int) == n by {
        NatToStringValue(-n);
      }
      ParseSignedNegative(u);
    } else {
      var u := NatToString(n);
      assert IntToString(n) == u;
      assert DigitsValue(u) == n by {
        NatToStringValue(n);
      }
      SignedWhole(u);
    }
  }

  /**
   * The French layout: a space between thousands and a decimal comma.
   * "1 000,50" reads as 1000.5.
   */
  lemma {:induction false} CleanNumberFrench(a: string, b: string, c: string)
    requires a != [] && AllDigits(a) && AllDigits(b) && AllDigits(c)
    ensures CleanNumber(Str(a + " " + b + "," + c)) == Some(Normalize(Decimal(DigitsValue(a + b + c), -|c|)))
  {
    var s := a + " " + b + "," + c;
    FrenchTrimmed(a, b, c);
    FrenchRewrite(a, b, c);
    AllDigitsAppend(a, b);
    CleanNumberDecimalText(s, a + b, c);
  }

  /** A trimmed text that the rewrites turn into `a.c` reads as that decimal. */
  lemma {:induction false} CleanNumberDecimalText(s: string, a: string, c: string)
    requires s != [] && Strip(s) == s
    requires a != [] && AllDigits(a) && AllDigits(c)
    requires Separators(Unformat(s)) == a + "." + c
    ensures CleanNumber(Str(s)) == Some(Normalize(Decimal(DigitsValue(a + c), -|c|)))
  {
    CleanNumberTrimmed(s);
    ParseFloatDecimal(a, c);
  }

  /** The rewrite drops the thousands blank and turns the decimal comma into a dot. */
  lemma {:induction false} FrenchRewrite(a: string, b: string, c: string)
    requires AllDigits(a) && AllDigits(b) && AllDigits(c)
    ensures Separators(Unformat(a + " " + b + "," + c)) == (a + b) + "." + c
  {
    FrenchUnformat(a, b, c);
    AllDigitsAppend(a, b);
    FrenchSeparators(a + b, c);
  }

  lemma {:induction false} FrenchTrimmed(a: string, b: string, c: string)
    requires a != [] && AllDigits(a) && AllDigits(c)
    ensures Strip(a + " " + b + "," + c) == a + " " + b + "," + c
  {
    var s := a + " " + b + "," + c;
    assert s[0] == a[0];
    assert s[|s| - 1] == ',' || s[|s| - 1] == c[|c| - 1];
    StripNoop(s);
  }

  lemma {:induction false} FrenchUnformat(a: string, b: string, c: string)
    requires AllDigits(a) && AllDigits(b) && AllDigits(c)
    ensures Unformat(a + " " + b + "," + c) == (a + b) + "," + c
  {
    var tail := b + "," + c;
    assert a + " " + b + "," + c == (a + " ") + tail;
    assert Unformat(a + " ") == a by {
      UnformatAppend(a, " ");
      UnformatPlain(a);
      UnformatDrops(' ');
      assert a + [] == a;
    }
    assert Unformat(tail) == tail by {
      DigitsCommaDigits(b, c);
      UnformatPlain(tail);
    }
    UnformatAppend(a + " ", tail);
    assert a + tail == (a + b) + "," + c;
  }

  lemma {:induction false} DigitsCommaDigits(b: string, c: string)
    requires AllDigits(b) && AllDigits(c)
    ensures forall i :: 0 <= i < |b + "," + c| ==> IsAsciiDigit((b + "," + c)[i]) || (b + "," + c)[i] == ','
  {
  }

  // ---------------------------------------------------------------- the Unformat algebra

  lemma {:induction false} RemoveCharAppend(x: string, y: string, ch: char)
    ensures RemoveChar(x + y, ch) == RemoveChar(x, ch) + RemoveChar(y, ch)
  {
    FilterAppend(x, y, c => c != ch);
  }

  /** Unformatting works character by character, so it distributes over concatenation. */
  lemma {:induction false} UnformatAppend(x: string, y: string)
    ensures Unformat(x + y) == Unformat(x) + Unformat(y)
  {
    var x1, y1 := RemoveChar(x, '\U{00A0}'), RemoveChar(y, '\U{00A0}');
    RemoveCharAppend(x, y, '\U{00A0}');
    RemoveCharAppend(x1, y1, ' ');
    FilterAppend(RemoveChar(x1, ' '), RemoveChar(y1, ' '), c => !IsCurrency(c));
  }

  /** Text of digits, signs and separators is left alone. */
  lemma {:induction false} UnformatPlain(x: string)
    requires forall i :: 0 <= i < |x| ==> IsAsciiDigit(x[i]) || x[i] == '-' || x[i] == ',' || x[i] == '.'
    ensures Unformat(x) == x
  {
    assert RemoveChar(x, '\U{00A0}') == x;
    assert RemoveChar(x, ' ') == x;
    assert Filter(x, c => !IsCurrency(c)) == x;
  }

  /** A blank, a no-break space or a currency sign is removed. */
  lemma {:induction false} UnformatDrops(ch: char)
    requires ch == '\U{00A0}' || ch == ' ' || IsCurrency(ch)
    ensures Unformat([ch]) == []
  {
    var x1 := RemoveChar([ch], '\U{00A0}');
    var x2 := RemoveChar(x1, ' ');
    assert x2 == [] || x2 == [ch];
  }

  lemma {:induction false} FrenchSeparators(w: string, c: string)
    requires AllDigits(w) && AllDigits(c)
    ensures Separators(w + "," + c) == w + "." + c
  {
    var t := w + "," + c;
    assert t[|w|] == ',';
    DigitsHaveNoSeparator(w);
    DigitsHaveNoSeparator(c);
    assert '.' !in t;
  }

  /** A currency sign is ignored: "€12.99" reads as 12.99. */
  lemma {:induction false} CleanNumberCurrency(a: string, c: string)
    requires a != [] && AllDigits(a) && AllDigits(c)
    ensures CleanNumber(Str("\U{20AC}" + a + "." + c)) == Some(Normalize(Decimal(DigitsValue(a + c), -|c|)))
  {
    var s := "\U{20AC}" + a + "." + c;
    CurrencyTrimmed(a, c);
    CurrencyUnformat(a, c);
    CurrencySeparators(a, c);
    CleanNumberDecimalText(s, a, c);
  }

  lemma {:induction false} CurrencyTrimmed(a: string, c: string)
    requires AllDigits(c)
    ensures Strip("\U{20AC}" + a + "." + c) == "\U{20AC}" + a + "." + c
  {
    var s := "\U{20AC}" + a + "." + c;
    assert s[|s| - 1] == '.' || s[|s| - 1] == c[|c| - 1];
    StripNoop(s);
  }

  lemma {:induction false} CurrencyUnformat(a: string, c: string)
    requires AllDigits(a) && AllDigits(c)
    ensures Unformat("\U{20AC}" + a + "." + c) == a + "." + c
  {
    var body := a + "." + c;
    var s := "\U{20AC}" + a + "." + c;
    assert s == [] + ['\U{20AC}'] + body;
    assert RemoveChar(s, '\U{00A0}') == s;
    assert RemoveChar(s, ' ') == s;
    FilterDropOne([], '\U{20AC}', body, x => !IsCurrency(x));
  }

  lemma {:induction false} CurrencySeparators(a: string, c: string)
    requires AllDigits(a) && AllDigits(c)
    ensures Separators(a + "." + c) == a + "." + c
  {
    DigitsHaveNoSeparator(a);
    DigitsHaveNoSeparator(c);
    assert ',' !in a + "." + c;
  }

  /** Missing and blank values clean to None. */
  lemma {:induction false} CleanNumberBlank(s: string)
    requires forall i :: 0 <= i < |s| ==> IsSpace(s[i])
    ensures CleanNumber(Str(s)).None? && CleanNumber(Null).None? && CleanNumber(NaN).None?
  {
    StripIsTrim(s);
  }
}
