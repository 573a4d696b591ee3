/** Reading numbers out of G-code text: `parseInt` of a digit run and
    `parseFloat` of a token, over exact reals. */
module Numbers {
  import opened Options
  import opened Text

  function DigitValue(c: char): nat
    requires IsDigit(c)
  {
    c as int - '0' as int
  }

  /** `parseInt(s, 10)` of a string of decimal digits. */
  function DigitsValue(s: string): nat
    requires AllDigits(s)
  {
    if s == [] then 0 else DigitsValue(s[..|s| - 1]) * 10 + DigitValue(s[|s| - 1])
  }

  function Pow10(n: nat): (r: real)
    ensures r >= 1.0
  {
    if n == 0 then 1.0 else 10.0 * Pow10(n - 1)
  }


  /** The text with a leading `+` or `-` removed. */
  function Unsigned(t: string): string {
    if |t| > 0 && (t[0] == '+' || t[0] == '-') then t[1..] else t
  }

  /** `t` begins with a decimal literal: after an optional sign, a digit,
      or a point followed by a digit. */
  predicate StartsNumber(t: string) {
    var u := Unsigned(t);
    (|u| >= 1 && IsDigit(u[0])) || (|u| >= 2 && u[0] == '.' && IsDigit(u[1]))
  }

  /** The exponent an `e`/`E`, optional sign and digits at the head of `s`
      stand for; 0 when `s` does not start with a complete exponent. */
  function Exponent(s: string): int {
    if |s| >= 2 && Fold(s[0]) == 'E' then
      var u := Unsigned(s[1..]);
      var n := Span(u, IsDigit);
      SpanMaximal(u, IsDigit);
      if n == 0 then 0
      else if s[1] == '-' then -(DigitsValue(u[..n]) as int)
      else DigitsValue(u[..n]) as int
    else 0
  }

  /** `parseFloat(s)`: leading white space is skipped and the longest
      decimal literal at the head is read; `None` stands for NaN, the
      result when no literal starts there. */
  function ParseFloat(s: string): Option<real> {
    ParseSigned(TrimStart(s))
  }

  /** A literal with an optional sign at the very start of `t`. */
  function ParseSigned(t: string): Option<real> {
    match ParseMagnitude(Unsigned(t))
    case None => None
    case Some(mag) => Some(if |t| > 0 && t[0] == '-' then -mag else mag)
  }

  /** `parseFloat` gives a number exactly when the text, after its leading
      white space, starts with a decimal literal; a minus sign makes it
      non-positive and its absence non-negative. */
  lemma ParseFloatDefined(s: string)
    ensures ParseFloat(s).Some? <==> StartsNumber(TrimStart(s))
    ensures ParseFloat(s).Some? && TrimStart(s)[0] == '-' ==> ParseFloat(s).value <= 0.0
    ensures ParseFloat(s).Some? && TrimStart(s)[0] != '-' ==> ParseFloat(s).value >= 0.0
  {
    MagnitudeDefined(Unsigned(TrimStart(s)));
  }

  /** An unsigned literal at the very start of `u`: digits, a point and
      digits (one of the two runs non-empty), then an optional exponent. */
  function ParseMagnitude(u: string): Option<real> {
    var a := Span(u, IsDigit);
    SpanMaximal(u, IsDigit);
    if a < |u| && u[a] == '.' then
      Fraction(u[..a], u[a + 1..])
    else if a == 0 then None
    else Some(Value(u[..a], [], Exponent(u[a..])))
  }

  /** A literal starts with a digit, or with a point and a digit, and its
      value is never negative. */
  lemma MagnitudeDefined(u: string)
    ensures ParseMagnitude(u).Some? <==> (|u| >= 1 && IsDigit(u[0])) || (|u| >= 2 && u[0] == '.' && IsDigit(u[1]))
    ensures ParseMagnitude(u).Some? ==> ParseMagnitude(u).value >= 0.0
  {
    var a := Span(u, IsDigit);
    SpanMaximal(u, IsDigit);
    if a < |u| && u[a] == '.' {
      FractionDefined(u[..a], u[a + 1..]);
      if a == 0 {
        assert u[a + 1..] == [] || u[a + 1..][0] == u[1];
      }
    }
  }

  /** The literal once its whole digits and the point are read: the
      digits after the point, then an optional exponent. */
  function Fraction(whole: string, rest: string): Option<real>
    requires AllDigits(whole)
  {
    var b := Span(rest, IsDigit);
    SpanMaximal(rest, IsDigit);
    if |whole| == 0 && b == 0 then None
    else Some(Value(whole, rest[..b], Exponent(rest[b..])))
  }

  /** After the point, a literal needs digits on one side of it. */
  lemma FractionDefined(whole: string, rest: string)
    requires AllDigits(whole)
    ensures Fraction(whole, rest).Some? <==> |whole| >= 1 || (|rest| >= 1 && IsDigit(rest[0]))
    ensures Fraction(whole, rest).Some? ==> Fraction(whole, rest).value >= 0.0
  {
    SpanMaximal(rest, IsDigit);
  }

  /** The number written with the digits `whole`, a point, the digits
      `frac` and the exponent `e`: all the digits read as one integer,
      with the point moved back over the fraction and on by `e`. */
  function Value(whole: string, frac: string, e: int): (v: real)
    requires AllDigits(whole) && AllDigits(frac)
    ensures v >= 0.0
  {
    AllDigitsConcat(whole, frac);
    Shift(DigitsValue(whole + frac) as real, e - |frac|)
  }

  lemma AllDigitsConcat(a: string, b: string)
    requires AllDigits(a) && AllDigits(b)
    ensures AllDigits(a + b)
  {
  }

  /** `x` with its decimal point moved `e` places to the right (to the left
      when `e` is negative). */
  function Shift(x: real, e: int): (r: real)
    ensures x >= 0.0 ==> r >= 0.0
    decreases if e >= 0 then e else -e
  {
    if e == 0 then x else if e > 0 then 10.0 * Shift(x, e - 1) else Shift(x, e + 1) / 10.0
  }

  /** Moving the point `n` places right multiplies by ten to the `n`. */
  lemma {:induction false} ShiftUp(x: real, n: nat)
    ensures Shift(x, n) == x * Pow10(n)
  {
    if n > 0 {
      ShiftUp(x, n - 1);
      TimesTen(Shift(x, n), x, Pow10(n - 1), Pow10(n));
    }
  }

  /** Moving the point `n` places left divides by ten to the `n`. */
  lemma {:induction false} ShiftDown(x: real, n: nat)
    ensures Shift(x, -(n as int)) == x / Pow10(n)
  {
    if n > 0 {
      ShiftDown(x, n - 1);
      TenthOver(Shift(x, -(n as int)), x, Pow10(n - 1), Pow10(n));
    }
  }

  lemma TimesTen(r: real, x: real, a: real, b: real)
    requires r == 10.0 * (x * a) && b == 10.0 * a
    ensures r == x * b
  {
  }

  lemma TenthOver(r: real, x: real, a: real, b: real)
    requires a > 0.0 && r == x / a / 10.0 && b == 10.0 * a
    ensures r == x / b
  {
  }



  /** The digits of `a` then `b` stand for `a` moved `|b|` places left,
      plus `b`. */
  lemma {:induction false} DigitsConcat(a: string, b: string)
    requires AllDigits(a) && AllDigits(b)
    ensures AllDigits(a + b)
    ensures DigitsValue(a + b) as real == Shift(DigitsValue(a) as real, |b|) + DigitsValue(b) as real
  {
    if b == [] {
      assert a + b == a;
    } else {
      var b' := b[..|b| - 1];
      DigitsConcat(a, b');
      assert (a + b)[..|a + b| - 1] == a + b';
      assert (a + b)[|a + b| - 1] == b[|b| - 1];
    }
  }

  /** Moving the point is additive. */
  lemma {:induction false} ShiftAdd(x: real, y: real, e: int)
    ensures Shift(x + y, e) == Shift(x, e) + Shift(y, e)
    decreases if e >= 0 then e else -e
  {
    if e > 0 {
      ShiftAdd(x, y, e - 1);
    } else if e < 0 {
      ShiftAdd(x, y, e + 1);
    }
  }

  /** Ten times `y`, moved `m + 1` places right of the point, is `y` moved
      `m` places. */
  lemma {:induction false} ShiftTen(y: real, m: nat)
    ensures Shift(10.0 * y, -(m as int) - 1) == Shift(y, -(m as int))
  {
    if m > 0 {
      ShiftTen(y, m - 1);
    }
  }

  /** Moving the point `n` places and back again changes nothing. */
  lemma {:induction false} ShiftBack(x: real, n: nat)
    ensures Shift(Shift(x, n), -(n as int)) == x
  {
    if n > 0 {
      ShiftTen(Shift(x, n - 1), n - 1);
      ShiftBack(x, n - 1);
    }
  }

  /** The digits `whole`, a point and the digits `frac`: the whole part
      plus the fraction's digits moved `|frac|` places right of the
      point. */
  function Decimal(whole: string, frac: string): real
    requires AllDigits(whole) && AllDigits(frac)
  {
    DigitsValue(whole) as real + Shift(DigitsValue(frac) as real, -|frac|)
  }

  /** Without an exponent, the value is the whole part plus the fraction. */
  lemma ValueFixed(whole: string, frac: string)
    requires AllDigits(whole) && AllDigits(frac)
    ensures Value(whole, frac, 0) == Decimal(whole, frac)
  {
    var x, y := DigitsValue(whole) as real, DigitsValue(frac) as real;
    DigitsConcat(whole, frac);
    ShiftAdd(Shift(x, |frac|), y, -|frac|);
    ShiftBack(x, |frac|);
  }

  /** The fraction's digits over ten to their number. */
  lemma FractionValue(whole: string, frac: string)
    requires AllDigits(whole) && AllDigits(frac)
    ensures Decimal(whole, frac) == DigitsValue(whole) as real + DigitsValue(frac) as real / Pow10(|frac|)
  {
    ShiftDown(DigitsValue(frac) as real, |frac|);
  }

  /** Whole digits and an exponent: the digits' value with the point moved
      by the exponent. */
  lemma ValueScaled(whole: string, e: int)
    requires AllDigits(whole)
    ensures Value(whole, [], e) == Shift(DigitsValue(whole) as real, e)
  {
    assert whole + [] == whole;
  }

  /** The decimal digits of `n`, without leading zeros. */
  function ShowNat(n: nat): (s: string)
    ensures |s| >= 1 && AllDigits(s)
  {
    if n < 10 then [('0' as int + n) as char] else ShowNat(n / 10) + [('0' as int + n % 10) as char]
  }

  /** Reading back the digits of `n` gives `n`. */
  lemma {:induction false} DigitsOfShowNat(n: nat)
    ensures DigitsValue(ShowNat(n)) == n
  {
    var s := ShowNat(n);
    if n >= 10 {
      DigitsOfShowNat(n / 10);
      assert s[..|s| - 1] == ShowNat(n / 10);
    }
  }

  /** The text of an integer, with a minus sign when it is negative. */
  function ShowInt(i: int): string {
    if i < 0 then "-" + ShowNat(-i) else ShowNat(i)
  }

  /** A digit string reads as its value. */
  lemma ParseDigits(d: string)
    requires |d| >= 1 && AllDigits(d)
    ensures ParseMagnitude(d) == Some(DigitsValue(d) as real)
  {
    SpanIs(d, IsDigit, |d|);
    assert d[..|d|] == d;
    assert Exponent(d[|d|..]) == 0;
    ValueWhole(d);
  }

  /** `parseFloat` reads back every integer written in decimal. */
  lemma ParseShowInt(i: int)
    ensures ParseFloat(ShowInt(i)) == Some(i as real)
  {
    var n: nat := if i < 0 then -i else i;
    DigitsOfShowNat(n);
    ParseDigits(ShowNat(n));
    if i < 0 {
      ParseMinus(ShowNat(n), n as real);
    } else {
      ParsePlain(ShowNat(n), n as real);
    }
  }

  /** A literal that starts with a digit reads as its magnitude. */
  lemma ParsePlain(d: string, v: real)
    requires |d| >= 1 && IsDigit(d[0]) && ParseMagnitude(d) == Some(v)
    ensures ParseFloat(d) == Some(v)
  {
    TrimStartPlain(d);
    UnsignedPlain(d);
  }

  /** A minus sign before a literal of value `v` reads as `-v`. */
  lemma ParseMinus(d: string, v: real)
    requires ParseMagnitude(d) == Some(v)
    ensures ParseFloat("-" + d) == Some(-v)
  {
    TrimStartPlain("-" + d);
    UnsignedMinus(d);
  }

  lemma UnsignedPlain(t: string)
    requires |t| >= 1 && t[0] != '+' && t[0] != '-'
    ensures Unsigned(t) == t
  {
  }

  lemma UnsignedMinus(t: string)
    ensures Unsigned("-" + t) == t
  {
    assert ("-" + t)[1..] == t;
  }

  lemma TrimStartPlain(t: string)
    requires |t| >= 1 && !IsSpace(t[0])
    ensures TrimStart(t) == t
  {
    SpanIs(t, IsSpace, 0);
    assert t[0..] == t;
  }

  /** Without a fraction or an exponent, a literal is its digits' value. */
  lemma ValueWhole(whole: string)
    requires AllDigits(whole)
    ensures Value(whole, [], 0) == DigitsValue(whole) as real
  {
    assert whole + [] == whole;
  }

  /** `a.b` reads as the whole part plus the fraction: the digits after
      the point over ten to their number. */
  lemma ParseFixed(a: string, b: string)
    requires AllDigits(a) && AllDigits(b) && |b| >= 1
    ensures ParseMagnitude(a + "." + b) == Some(Decimal(a, b))
  {
    var u := a + "." + b;
    SpanIs(u, IsDigit, |a|);
    assert u[..|a|] == a && u[|a|] == '.' && u[|a| + 1..] == b;
    SpanIs(b, IsDigit, |b|);
    assert b[..|b|] == b && b[|b|..] == [];
    MagnitudeWithPoint(u, |a|);
    assert Fraction(a, b) == Some(Value(a, b, 0));
    ValueFixed(a, b);
  }

  /** A point after the leading digits hands the rest to `Fraction`. */
  lemma MagnitudeWithPoint(u: string, a: nat)
    requires Span(u, IsDigit) == a && a < |u| && u[a] == '.'
    ensures AllDigits(u[..a]) && ParseMagnitude(u) == Fraction(u[..a], u[a + 1..])
  {
    DigitsBefore(u, a);
  }

  /** The digits a span of digits covers. */
  lemma DigitsBefore(u: string, a: nat)
    requires Span(u, IsDigit) == a
    ensures a <= |u| && AllDigits(u[..a])
  {
    SpanMaximal(u, IsDigit);
  }

  /** Digits, `e` or `E`, then an integer: the digits' value times ten to
      that power. */
  lemma ParseScientific(a: string, e: char, k: int)
    requires |a| >= 1 && AllDigits(a) && (e == 'e' || e == 'E')
    ensures ParseMagnitude(a + [e] + ShowInt(k)) == Some(Shift(DigitsValue(a) as real, k))
  {
    var rest := [e] + ShowInt(k);
    assert a + [e] + ShowInt(k) == a + rest;
    ExponentOf(e, k);
    MagnitudeWhole(a, rest);
    ValueScaled(a, k);
  }

  /** Digits followed by anything but a digit or a point: their value with
      the point moved by the exponent that follows. */
  lemma MagnitudeWhole(a: string, rest: string)
    requires |a| >= 1 && AllDigits(a) && rest != [] && !IsDigit(rest[0]) && rest[0] != '.'
    ensures ParseMagnitude(a + rest) == Some(Value(a, [], Exponent(rest)))
  {
    var u := a + rest;
    SpanConcat(a, rest, IsDigit);
    assert u[..|a|] == a && u[|a|..] == rest;
  }

  /** The exponent `e` and the text of `k` stand for `k`. */
  lemma ExponentOf(e: char, k: int)
    requires e == 'e' || e == 'E'
    ensures Exponent([e] + ShowInt(k)) == k
  {
    var n: nat := if k < 0 then -k else k;
    DigitsOfShowNat(n);
    ExponentDigits(e, ShowNat(n));
  }

  /** `e`, then digits with or without a sign: their value, negated after
      a minus sign. */
  lemma ExponentDigits(e: char, d: string)
    requires e == 'e' || e == 'E'
    requires |d| >= 1 && AllDigits(d)
    ensures Exponent([e] + d) == DigitsValue(d)
    ensures Exponent([e] + ("-" + d)) == -(DigitsValue(d) as int)
  {
    var s, t := [e] + d, [e] + ("-" + d);
    assert s[1..] == d;
    UnsignedPlain(d);
    ExponentIs(s, d);
    assert t[1..] == "-" + d;
    UnsignedMinus(d);
    ExponentIs(t, d);
  }

  /** An exponent marker, then digits after an optional sign: their value,
      negated after a minus sign. */
  lemma ExponentIs(s: string, d: string)
    requires |s| >= 2 && Fold(s[0]) == 'E' && Unsigned(s[1..]) == d && |d| >= 1 && AllDigits(d)
    ensures Exponent(s) == if s[1] == '-' then -(DigitsValue(d) as int) else DigitsValue(d) as int
  {
    SpanIs(d, IsDigit, |d|);
    assert d[..|d|] == d;
  }
}
