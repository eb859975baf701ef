/**
 * Exact decimal numbers standing in for Python floats, with the parts of
 * `float(str)`, `int(float)` and `repr(float)` the engine depends on.
 * A decimal is kept canonical (no trailing zero in its coefficient), so two
 * canonical decimals are equal exactly when their values are.
 */
module Decimals {
  import opened Strings
  import opened Wrappers

  /** The number `coef` × 10^`exp`. */
  datatype Decimal = Decimal(coef: int, exp: int)

  function Pow10(n: nat): (r: nat)
    ensures r >= 1
  {
    if n == 0 then 1 else 10 * Pow10(n - 1)
  }

  function Abs(n: int): nat {
    if n < 0 then -n else n
  }

  predicate Canonical(d: Decimal) {
    if d.coef == 0 then d.exp == 0 else d.coef % 10 != 0
  }

  /**
   * Strips trailing zeros from the coefficient: the result has the same value,
   * as `d` is the result with its coefficient scaled by a power of ten.
   */
  function Normalize(d: Decimal): (r: Decimal)
    ensures Canonical(r)
    ensures d.coef != 0 ==> r.exp >= d.exp && d.coef == r.coef * Pow10(r.exp - d.exp)
    ensures d.coef == 0 <==> r.coef == 0
    decreases Abs(d.coef)
  {
    if d.coef == 0 then Decimal(0, 0)
    else if d.coef % 10 == 0 then
      var r := Normalize(Decimal(d.coef / 10, d.exp + 1));
      assert Pow10(r.exp - d.exp) == 10 * Pow10(r.exp - d.exp - 1);
      assert d.coef == 10 * (r.coef * Pow10(r.exp - d.exp - 1));
      r
    else d
  }

  /** `float(n)` for a Python int. */
  function FromInt(n: int): (r: Decimal)
    ensures Canonical(r)
    ensures n != 0 ==> r.exp >= 0 && n == r.coef * Pow10(r.exp)
    ensures n == 0 ==> r == Decimal(0, 0)
  {
    Normalize(Decimal(n, 0))
  }

  /**
   * `int(x)`: drops the fraction, rounding toward zero, so the result has the
   * sign of `d` and its magnitude is the whole part of `d`'s magnitude.
   */
  function Truncate(d: Decimal): (r: int)
    ensures d.exp >= 0 ==> r == d.coef * Pow10(d.exp)
    ensures d.exp < 0 ==> WholePart(Abs(d.coef), Pow10(-d.exp), Abs(r))
    ensures d.coef >= 0 ==> r >= 0
    ensures d.coef <= 0 ==> r <= 0
  {
    if d.exp >= 0 then
      ScaledSign(d.coef, Pow10(d.exp));
      d.coef * Pow10(d.exp)
    else
      var q: int := WholeDiv(Abs(d.coef), Pow10(-d.exp));
      if d.coef >= 0 then q else -q
  }

  /** `q` is the whole part of `a / p`. */
  predicate WholePart(a: nat, p: nat, q: nat) {
    q * p <= a < q * p + p
  }

  function WholeDiv(a: nat, p: nat): (q: nat)
    requires p >= 1
    ensures WholePart(a, p, q)
  {
    a / p
  }

  lemma {:induction false} ScaledSign(c: int, p: nat)
    ensures c >= 0 ==> c * p >= 0
    ensures c <= 0 ==> c * p <= 0
  {
  }

  // ---------------------------------------------------------------- float(str)

  /**
   * The optional exponent part of a Python float literal: empty, or `e`/`E`,
   * an optional sign and at least one digit, and nothing after.
   */
  function ParseExponent(t: string): (r: Option<int>)
    ensures t == [] ==> r == Some(0)
    ensures r.Some? && t != [] ==> (t[0] == 'e' || t[0] == 'E') && '.' !in t && ',' !in t
  {
    if t == [] then Some(0)
    else if t[0] == 'e' || t[0] == 'E' then
      var u := t[1..];
      var v := if u != [] && (u[0] == '+' || u[0] == '-') then u[1..] else u;
      if v != [] && AllDigits(v) then
        assert t == [t[0]] + u;
        assert u == v || u == [u[0]] + v;
        var n: int := DigitsValue(v);
        Some(if u[0] == '-' then -n else n)
      else None
    else None
  }

  /** A float literal without its sign, cut into whole digits, point, fraction digits and the rest. */
  datatype Mantissa = Mantissa(whole: string, point: bool, frac: string, tail: string)

  function SplitMantissa(u: string): (m: Mantissa)
    ensures AllDigits(m.whole) && AllDigits(m.frac)
    ensures m.point ==> u == m.whole + "." + m.frac + m.tail
    ensures !m.point ==> u == m.whole + m.tail && m.frac == []
    ensures m.tail != [] ==> !IsAsciiDigit(m.tail[0]) && (!m.point ==> m.tail[0] != '.')
  {
    var whole := DigitPrefix(u);
    var rest := u[|whole|..];
    assert u == whole + rest;
    var m := SplitFraction(whole, rest);
    if m.point then Rejoin(whole, rest, m.frac, m.tail); m else m
  }

  /** The part after the whole digits: a point and fraction digits, or nothing. */
  function SplitFraction(whole: string, rest: string): (m: Mantissa)
    requires AllDigits(whole)
    requires rest != [] ==> !IsAsciiDigit(rest[0])
    ensures m.whole == whole && AllDigits(m.frac)
    ensures m.point ==> rest == "." + m.frac + m.tail
    ensures !m.point ==> rest == m.tail && m.frac == []
    ensures m.tail != [] ==> !IsAsciiDigit(m.tail[0]) && (!m.point ==> m.tail[0] != '.')
  {
    if rest != [] && rest[0] == '.' then
      var frac := DigitPrefix(rest[1..]);
      var tail := rest[1..][|frac|..];
      assert rest[1..] == frac + tail;
      Mantissa(whole, true, frac, tail)
    else
      Mantissa(whole, false, [], rest)
  }

  lemma {:induction false} Rejoin(whole: string, rest: string, frac: string, tail: string)
    requires rest == "." + frac + tail
    ensures whole + rest == whole + "." + frac + tail
  {
  }

  /** The value of an unsigned literal: its digits as one integer and the exponent. */
  function MantissaValue(m: Mantissa): (r: Option<Decimal>)
    requires AllDigits(m.whole) && AllDigits(m.frac)
    ensures r.Some? ==> r.value.coef >= 0
  {
    if m.whole == [] && m.frac == [] then None
    else
      match ParseExponent(m.tail)
      case None => None
      case Some(e) =>
        AllDigitsAppend(m.whole, m.frac);
        Some(Decimal(DigitsValue(m.whole + m.frac), e - |m.frac|))
  }

  /**
   * Python's `float(s)` on decimal notation: surrounding whitespace, an
   * optional sign, digits with at most one decimal point (at least one digit
   * in all), and an optional exponent.
   */
  function ParseFloat(s: string): (r: Option<Decimal>)
    ensures r.Some? ==> Canonical(r.value)
  {
    ParseSigned(Strip(s))
  }

  /** A float literal with its surrounding whitespace already removed. */
  function ParseSigned(t: string): (r: Option<Decimal>)
    ensures r.Some? ==> Canonical(r.value)
  {
    var signed := t != [] && (t[0] == '+' || t[0] == '-');
    var negative := t != [] && t[0] == '-';
    match MantissaValue(SplitMantissa(if signed then t[1..] else t))
    case None => None
    case Some(d) => Some(Normalize(if negative then Decimal(-d.coef, d.exp) else d))
  }

  // ---------------------------------------------------------------- repr(float)

  function Zeros(n: nat): (r: string)
    ensures |r| == n && AllDigits(r)
  {
    seq(n, _ => '0')
  }

  /**
   * Python's `repr` of a float whose value is `d`: positional notation with at
   * least one digit after the point while the decimal point sits within
   * (-4, 16] digits of the first significant digit, scientific otherwise.
   */
  function Repr(d: Decimal): (r: string)
    requires Canonical(d)
    ensures r != []
  {
    if d.coef == 0 then "0.0"
    else
      var digits := NatToString(Abs(d.coef));
      var n := |digits|;
      var point := n + d.exp;
      var body :=
        if -4 < point <= 16 then
          if point <= 0 then "0." + Zeros(-point) + digits
          else if point >= n then digits + Zeros(point - n) + ".0"
          else digits[..point] + "." + digits[point..]
        else
          var mantissa := if n == 1 then digits else digits[..1] + "." + digits[1..];
          var e := point - 1;
          mantissa + "e" + (if e < 0 then "-" else "+") + (if Abs(e) < 10 then "0" else "") + NatToString(Abs(e));
      (if d.coef < 0 then "-" else "") + body
  }
}
