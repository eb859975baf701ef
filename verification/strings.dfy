/**
 * Character classes and string operations of Python's `str` that the
 * normalisation engine relies on: `isspace`/`strip`, ASCII lower-casing,
 * `replace`, `index`, `in`, and decimal digit strings.
 */
module Strings {

  /** Python's `str.isspace()`: the characters `strip()` removes and `\s` matches. */
  predicate IsSpace(c: char) {
    || c == '\t' || c == '\n' || c == '\U{000B}' || c == '\U{000C}' || c == '\r'
    || ('\U{001C}' <= c <= '\U{001F}') || c == ' ' || c == '\U{0085}' || c == '\U{00A0}'
    || c == '\U{1680}' || ('\U{2000}' <= c <= '\U{200A}') || c == '\U{2028}' || c == '\U{2029}'
    || c == '\U{202F}' || c == '\U{205F}' || c == '\U{3000}'
  }

  predicate IsAsciiDigit(c: char) { '0' <= c <= '9' }
  predicate IsAsciiUpper(c: char) { 'A' <= c <= 'Z' }
  predicate IsAsciiLower(c: char) { 'a' <= c <= 'z' }

  predicate AllDigits(s: string) {
    forall i :: 0 <= i < |s| ==> IsAsciiDigit(s[i])
  }

  lemma {:induction false} AllDigitsAppend(a: string, b: string)
    requires AllDigits(a) && AllDigits(b)
    ensures AllDigits(a + b)
  {
  }

  /** Lower-cases ASCII letters and leaves every other character alone. */
  function LowerChar(c: char): (r: char)
    ensures IsAsciiUpper(c) ==> IsAsciiLower(r)
    ensures !IsAsciiUpper(c) ==> r == c
  {
    if IsAsciiUpper(c) then (c as int + 32) as char else c
  }

  function LowerAscii(s: string): (r: string)
    ensures |r| == |s|
    ensures forall i :: 0 <= i < |s| ==> r[i] == LowerChar(s[i])
  {
    seq(|s|, i requires 0 <= i < |s| => LowerChar(s[i]))
  }

  /** The characters of `s` that satisfy `keep`, in order. */
  function Filter(s: string, keep: char -> bool): (r: string)
    ensures |r| <= |s|
    ensures forall i :: 0 <= i < |r| ==> keep(r[i])
    ensures (forall i :: 0 <= i < |s| ==> keep(s[i])) ==> r == s
  {
    if s == [] then []
    else if keep(s[0]) then [s[0]] + Filter(s[1..], keep)
    else Filter(s[1..], keep)
  }

  lemma {:induction false} FilterAppend(a: string, b: string, keep: char -> bool)
    ensures Filter(a + b, keep) == Filter(a, keep) + Filter(b, keep)
  {
    if a == [] {
      assert a + b == b;
    } else {
      assert (a + b)[0] == a[0];
      assert (a + b)[1..] == a[1..] + b;
      FilterAppend(a[1..], b, keep);
    }
  }

  /** Filtering keeps any property every character already had. */
  lemma {:induction false} FilterKeeps(s: string, keep: char -> bool, p: char -> bool)
    requires forall i :: 0 <= i < |s| ==> p(s[i])
    ensures forall i :: 0 <= i < |Filter(s, keep)| ==> p(Filter(s, keep)[i])
  {
    if s != [] {
      FilterKeeps(s[1..], keep, p);
    }
  }

  /** Filtering out one unwanted character between wanted ones removes exactly it. */
  lemma {:induction false} FilterDropOne(a: string, b: char, c: string, keep: char -> bool)
    requires forall i :: 0 <= i < |a| ==> keep(a[i])
    requires !keep(b)
    requires forall i :: 0 <= i < |c| ==> keep(c[i])
    ensures Filter(a + [b] + c, keep) == a + c
  {
    FilterAppend(a + [b], c, keep);
    FilterAppend(a, [b], keep);
    assert Filter([b], keep) == [];
    var fa := Filter(a, keep);
    assert fa == a;
    assert Filter(a + [b], keep) == a + [];
    assert a + [] == a;
  }

  /** Python's `s.replace(a, b)` for single characters. */
  function ReplaceChar(s: string, a: char, b: char): (r: string)
    ensures |r| == |s|
    ensures forall i :: 0 <= i < |s| ==> r[i] == (if s[i] == a then b else s[i])
  {
    seq(|s|, i requires 0 <= i < |s| => if s[i] == a then b else s[i])
  }

  /** Python's `s.replace(a, '')` for a single character. */
  function RemoveChar(s: string, a: char): (r: string)
    ensures a !in r
  {
    Filter(s, c => c != a)
  }

  /** Python's `s.index(c)`: the position of the first occurrence. */
  function IndexOf(s: string, c: char): (r: nat)
    requires c in s
    ensures r < |s| && s[r] == c
    ensures c !in s[..r]
  {
    if s[0] == c then 0 else IndexOf(s[1..], c) + 1
  }

  /** Python's `p in s` for strings. */
  predicate HasSubstring(s: string, p: string)
    decreases |s|
  {
    |p| <= |s| && (s[..|p|] == p || HasSubstring(s[1..], p))
  }

  predicate StartsWith(s: string, p: string) {
    |p| <= |s| && s[..|p|] == p
  }

  /** Two prefixes that begin differently cannot both start the same text. */
  lemma {:induction false} PrefixClash(s: string, p: string, q: string)
    requires p != [] && q != [] && p[0] != q[0]
    requires StartsWith(s, p)
    ensures !StartsWith(s, q)
  {
    assert s[0] == s[..|p|][0] == p[0];
    if |q| <= |s| {
      assert s[..|q|][0] == s[0];
    }
  }

  // ---------------------------------------------------------------- strip

  function TrimStart(s: string): (r: string)
    ensures |r| <= |s| && r == s[|s| - |r|..]
    ensures forall i :: 0 <= i < |s| - |r| ==> IsSpace(s[i])
    ensures r != [] ==> !IsSpace(r[0])
  {
    if s != [] && IsSpace(s[0]) then TrimStart(s[1..]) else s
  }

  function TrimEnd(s: string): (r: string)
    ensures |r| <= |s| && r == s[..|r|]
    ensures forall i :: |r| <= i < |s| ==> IsSpace(s[i])
    ensures r != [] ==> !IsSpace(r[|r| - 1])
  {
    if s != [] && IsSpace(s[|s| - 1]) then TrimEnd(s[..|s| - 1]) else s
  }

  /** Python's `s.strip()`: the result neither starts nor ends with whitespace. */
  function Strip(s: string): (r: string)
    ensures |r| <= |s|
    ensures r != [] ==> !IsSpace(r[0]) && !IsSpace(r[|r| - 1])
  {
    TrimEnd(TrimStart(s))
  }

  /**
   * What `strip()` cuts away: the result is a contiguous piece of `s` and
   * everything removed on either side is whitespace.
   */
  lemma {:induction false} StripIsTrim(s: string)
    ensures exists i, j :: 0 <= i <= j <= |s| && Strip(s) == s[i..j]
              && (forall k :: 0 <= k < i ==> IsSpace(s[k]))
              && (forall k :: j <= k < |s| ==> IsSpace(s[k]))
  {
    var t := TrimStart(s);
    var r := TrimEnd(t);
    var i := |s| - |t|;
    var j := i + |r|;
    assert Strip(s) == s[i..j] by {
      assert t == s[i..] && r == t[..|r|];
    }
    assert forall k :: 0 <= k < i ==> IsSpace(s[k]);
    assert forall k :: j <= k < |s| ==> IsSpace(s[k]) by {
      forall k | j <= k < |s|
        ensures IsSpace(s[k])
      {
        assert s[k] == t[k - i];
      }
    }
  }

  lemma {:induction false} StripNoop(s: string)
    requires s != [] ==> !IsSpace(s[0]) && !IsSpace(s[|s| - 1])
    ensures Strip(s) == s
  {
  }

  // ---------------------------------------------------------------- digits

  function DigitChar(d: nat): (c: char)
    requires d < 10
    ensures IsAsciiDigit(c) && c as int == '0' as int + d
  {
    ('0' as int + d) as char
  }

  function DigitValue(c: char): (d: nat)
    requires IsAsciiDigit(c)
    ensures d < 10 && DigitChar(d) == c
  {
    c as int - '0' as int
  }

  /** The longest prefix of `s` made of ASCII digits. */
  function DigitPrefix(s: string): (r: string)
    ensures |r| <= |s| && AllDigits(r) && r == s[..|r|]
    ensures |r| < |s| ==> !IsAsciiDigit(s[|r|])
  {
    if s != [] && IsAsciiDigit(s[0]) then [s[0]] + DigitPrefix(s[1..]) else []
  }

  lemma {:induction false} DigitPrefixOfConcat(a: string, b: string)
    requires AllDigits(a)
    requires b != [] ==> !IsAsciiDigit(b[0])
    ensures DigitPrefix(a + b) == a
  {
    if a != [] {
      assert (a + b)[1..] == a[1..] + b;
      DigitPrefixOfConcat(a[1..], b);
    }
  }

  /** The number written by a string of decimal digits (`int(s)`). */
  function DigitsValue(s: string): nat
    requires AllDigits(s)
  {
    if s == [] then 0 else DigitsValue(s[..|s| - 1]) * 10 + DigitValue(s[|s| - 1])
  }

  /** The decimal digits of `n`, without leading zeros (`str(n)`). */
  function NatToString(n: nat): (r: string)
    ensures r != [] && AllDigits(r)
    decreases n
  {
    if n < 10 then [DigitChar(n)] else NatToString(n / 10) + [DigitChar(n % 10)]
  }

  function IntToString(n: int): (r: string)
    ensures r != []
  {
    if n < 0 then "-" + NatToString(-n) else NatToString(n)
  }

  lemma {:induction false} NatToStringValue(n: nat)
    ensures DigitsValue(NatToString(n)) == n
    decreases n
  {
    if n >= 10 {
      var s := NatToString(n);
      NatToStringValue(n / 10);
      assert s[..|s| - 1] == NatToString(n / 10);
    }
  }

  /** `n` written with exactly two digits (`%02d`). */
  function Pad2(n: nat): (r: string)
    requires n < 100
    ensures |r| == 2 && AllDigits(r) && DigitsValue(r) == n
  {
    var r := [DigitChar(n / 10), DigitChar(n % 10)];
    assert r[..1] == [r[0]] && r[..1][..0] == [];
    assert DigitsValue(r[..1]) == n / 10;
    r
  }

  /** `n` written with exactly four digits (`%04d`). */
  function Pad4(n: nat): (r: string)
    requires n < 10000
    ensures |r| == 4 && AllDigits(r) && DigitsValue(r) == n
  {
    var r := [DigitChar(n / 1000), DigitChar(n / 100 % 10), DigitChar(n / 10 % 10), DigitChar(n % 10)];
    assert r[..3][..2][..1] == [r[0]] && r[..3][..2][..1][..0] == [];
    assert r[..3][..2] == [r[0], r[1]];
    assert r[..3] == [r[0], r[1], r[2]];
    assert DigitsValue(r[..3][..2][..1]) == n / 1000;
    assert DigitsValue(r[..3][..2]) == n / 100;
    assert DigitsValue(r[..3]) == n / 10;
    r
  }
}
