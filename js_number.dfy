/** Number(text) in JavaScript, as the string-to-number conversion of section
    7.1.4.1.1 of ECMA-262 reads it, and ToInt32 of the result (section 7.1.6):
    surrounding white space and line terminators are skipped, a blank string
    is 0, a 0x, 0o or 0b prefix introduces an unsigned hexadecimal, octal or
    binary integer, and otherwise an optionally signed "Infinity" or decimal
    literal with an optional fraction and exponent is read. Anything else is
    NaN. A finite value is kept exactly as digits times a power of ten. */
module JsNumbers {
  import opened Wrappers
  import opened Text
  import Bytes

  /** The WhiteSpace and LineTerminator characters Number() skips. */
  predicate IsJsSpace(c: char)
  {
    || '\t' <= c <= '\r' || c == ' ' || c == '\U{00A0}' || c == '\U{1680}'
    || '\U{2000}' <= c <= '\U{200A}' || c == '\U{2028}' || c == '\U{2029}'
    || c == '\U{202F}' || c == '\U{205F}' || c == '\U{3000}' || c == '\U{FEFF}'
  }

  const JS_WHITESPACE: set<char> := set c: char | IsJsSpace(c)

  /** The value of Number(text): NaN, an infinity, or
      (negative ? -1 : 1) * digits * 10^exponent. */
  datatype JsNumber = NaN | Infinity(negative: bool) | Finite(negative: bool, digits: nat, exponent: int)

  function Pow10(n: nat): (r: nat)
    ensures r >= 1
  {
    if n == 0 then 1 else 10 * Pow10(n - 1)
  }

  /** The value of a digit in bases up to 16 (either case), or 16 for a character
      that is no such digit. */
  function RadixDigit(c: char): (r: nat)
    ensures r <= 16
  {
    if '0' <= c <= '9' then (c as int) - ('0' as int)
    else if 'a' <= c <= 'f' then (c as int) - ('a' as int) + 10
    else if 'A' <= c <= 'F' then (c as int) - ('A' as int) + 10
    else 16
  }

  predicate AllRadix(s: string, base: nat)
  {
    forall i :: 0 <= i < |s| ==> RadixDigit(s[i]) < base
  }

  /** The value of digits in the base, most significant first. */
  function RadixValue(s: string, base: nat): nat
    requires AllRadix(s, base)
  {
    if |s| == 0 then 0 else base * RadixValue(s[..|s| - 1], base) + RadixDigit(s[|s| - 1])
  }

  /** The base a 0x, 0o or 0b prefix (in either case) introduces, or 0. */
  function PrefixBase(t: string): (base: nat)
    ensures base in {0, 2, 8, 16}
    ensures base != 0 ==> |t| >= 2 && t[0] == '0'
  {
    if |t| < 2 || t[0] != '0' then 0
    else if t[1] == 'x' || t[1] == 'X' then 16
    else if t[1] == 'o' || t[1] == 'O' then 8
    else if t[1] == 'b' || t[1] == 'B' then 2
    else 0
  }

  /** The index of the first character of s in cs, or |s| when there is none. */
  function FirstOf(s: string, cs: set<char>): (i: nat)
    ensures i <= |s| && (i < |s| ==> s[i] in cs)
    ensures forall j :: 0 <= j < i ==> s[j] !in cs
  {
    if |s| == 0 then 0
    else if s[0] in cs then 0
    else 1 + FirstOf(s[1..], cs)
  }

  /** An exponent: an optional sign and at least one decimal digit. */
  function Exponent(x: string): (r: Option<int>)
  {
    if |x| >= 1 && (x[0] == '+' || x[0] == '-') then
      if |x| >= 2 && AllDigits(x[1..]) then
        var v: int := DecimalValue(x[1..]);
        Some(if x[0] == '-' then -v else v)
      else None
    else if |x| >= 1 && AllDigits(x) then Some(DecimalValue(x))
    else None
  }

  /** The part of a decimal literal before its exponent: digits, an optional
      '.' and fraction digits, with digits on at least one side of the point;
      the result is the digits of both sides as one integer and the number of
      fraction digits. */
  function Mantissa(u: string): (r: Option<(nat, nat)>)
  {
    var d := FirstOf(u, {'.'});
    var whole := u[..d];
    var fraction := if d < |u| then u[d + 1..] else [];
    if AllDigits(whole) && AllDigits(fraction) && |whole| + |fraction| >= 1 then
      Some((DecimalValue(whole + fraction), |fraction|))
    else None
  }

  /** StrUnsignedDecimalLiteral without Infinity: a mantissa and an optional 'e'
      or 'E' exponent; the result is the mantissa's digits and the power of ten
      that places its point and applies the exponent. */
  function DecimalLiteral(u: string): (r: Option<(nat, int)>)
  {
    var k := FirstOf(u, {'e', 'E'});
    var m := Mantissa(u[..k]);
    var exp := if k == |u| then Some(0) else Exponent(u[k + 1..]);
    if m.Some? && exp.Some? then Some((m.value.0, exp.value - m.value.1)) else None
  }

  /** An unsigned "Infinity" or decimal literal, with the sign already read. */
  function Unsigned(u: string, negative: bool): JsNumber
  {
    if u == "Infinity" then Infinity(negative)
    else
      match DecimalLiteral(u)
      case None => NaN
      case Some((m, e)) => Finite(negative, m, e)
  }

  /** Number(s). */
  function ToNumber(s: string): (r: JsNumber)
    ensures |s| >= 1 && AllDigits(s) ==> r == Finite(false, DecimalValue(s), 0)
    ensures Strip(s, JS_WHITESPACE) == [] ==> r == Finite(false, 0, 0)
    ensures var t := Strip(s, JS_WHITESPACE);
            |t| >= 1 && !IsDigit(t[0]) && t[0] !in {'+', '-', '.', 'I'} ==> r == NaN
  {
    DigitsLiteral(s);
    var t := Strip(s, JS_WHITESPACE);
    OtherStartIsNaN(t);
    if |t| == 0 then Finite(false, 0, 0)
    else if PrefixBase(t) != 0 then
      var base := PrefixBase(t);
      if |t| >= 3 && AllRadix(t[2..], base) then Finite(false, RadixValue(t[2..], base), 0) else NaN
    else if t[0] == '+' then Unsigned(t[1..], false)
    else if t[0] == '-' then Unsigned(t[1..], true)
    else Unsigned(t, false)
  }

  /** A run of decimal digits has nothing to strip and is a decimal literal
      without fraction or exponent. */
  lemma DigitsLiteral(s: string)
    ensures |s| >= 1 && AllDigits(s) ==> Strip(s, JS_WHITESPACE) == s && PrefixBase(s) == 0
                                         && DecimalLiteral(s) == Some((DecimalValue(s), 0))
  {
    if |s| >= 1 && AllDigits(s) {
      DigitsUnpadded(s);
      NoneOf(s, {'e', 'E'});
      NoneOf(s, {'.'});
      WholeLiteral(s);
    }
  }

  lemma DigitsUnpadded(s: string)
    requires |s| >= 1 && AllDigits(s)
    ensures Strip(s, JS_WHITESPACE) == s && PrefixBase(s) == 0
  {
    assert IsDigit(s[0]) && IsDigit(s[|s| - 1]);
    StripKeeps(s, JS_WHITESPACE);
    assert |s| >= 2 ==> IsDigit(s[1]);
  }

  /** Text with neither exponent mark nor point is read as its digits. */
  lemma WholeLiteral(u: string)
    requires |u| >= 1 && AllDigits(u) && FirstOf(u, {'e', 'E'}) == |u| && FirstOf(u, {'.'}) == |u|
    ensures DecimalLiteral(u) == Some((DecimalValue(u), 0))
  {
    assert u[..|u|] == u;
    WholeMantissa(u);
  }

  lemma WholeMantissa(u: string)
    requires |u| >= 1 && AllDigits(u) && FirstOf(u, {'.'}) == |u|
    ensures Mantissa(u) == Some((DecimalValue(u), 0))
  {
    assert u[..|u|] == u;
    assert u + [] == u;
  }

  lemma NoneOf(s: string, cs: set<char>)
    requires forall i :: 0 <= i < |s| ==> s[i] !in cs
    ensures FirstOf(s, cs) == |s|
  {
  }

  lemma {:induction false} FirstOfAt(s: string, i: nat, cs: set<char>)
    requires i < |s| && s[i] in cs && forall j :: 0 <= j < i ==> s[j] !in cs
    ensures FirstOf(s, cs) == i
  {
    if i > 0 {
      FirstOfAt(s[1..], i - 1, cs);
    }
  }

  /** Text starting with anything but a digit, a sign, a point or the 'I' of
      Infinity is NaN. */
  lemma OtherStartIsNaN(t: string)
    ensures |t| >= 1 && !IsDigit(t[0]) && t[0] !in {'+', '-', '.', 'I'}
            ==> PrefixBase(t) == 0 && Unsigned(t, false) == NaN
  {
    if |t| >= 1 && !IsDigit(t[0]) && t[0] !in {'+', '-', '.', 'I'} {
      assert t != "Infinity" by {
        assert t[0] != "Infinity"[0];
      }
      var k := FirstOf(t, {'e', 'E'});
      if k > 0 {
        var mantissa := t[..k];
        assert mantissa[0] == t[0];
        var d := FirstOf(mantissa, {'.'});
        assert d > 0;
        assert mantissa[..d][0] == t[0];
      }
    }
  }

  /** The integer part of digits * 10^e, rounded toward zero. */
  function Magnitude(m: nat, e: int): (a: nat)
    ensures e >= 0 ==> a == m * Pow10(e)
    ensures e < 0 ==> a * Pow10(-e) <= m < (a + 1) * Pow10(-e)
  {
    if e >= 0 then m * Pow10(e)
    else
      var p := Pow10(-e);
      RoundsDown(m, p);
      m / p
  }

  lemma RoundsDown(m: nat, p: nat)
    requires p >= 1
    ensures m / p >= 0 && (m / p) * p <= m < (m / p + 1) * p
  {
    var q, r := m / p, m % p;
    assert m == q * p + r;
    assert (q + 1) * p == q * p + p;
  }

  /** The integer ToInt32 reduces modulo 2^32: NaN and the infinities give 0 and
      a finite value loses its fraction, rounding toward zero. */
  function Truncate(n: JsNumber): (r: int)
    ensures n.Finite? ==> (if n.negative then -r else r) == Magnitude(n.digits, n.exponent)
    ensures !n.Finite? ==> r == 0
  {
    match n
    case Finite(negative, m, e) =>
      var a: int := Magnitude(m, e);
      if negative then -a else a
    case _ => 0
  }

  // --- Properties -----------------------------------------------------------------

  /** White space and line terminators around a literal do not change its value. */
  lemma ToNumberPadded(pre: string, s: string, post: string)
    requires |s| > 0 && s[0] !in JS_WHITESPACE && s[|s| - 1] !in JS_WHITESPACE
    requires forall k :: 0 <= k < |pre| ==> pre[k] in JS_WHITESPACE
    requires forall k :: 0 <= k < |post| ==> post[k] in JS_WHITESPACE
    ensures ToNumber(pre + s + post) == ToNumber(s)
  {
    StripPadding(pre, s, post, JS_WHITESPACE);
    StripKeeps(s, JS_WHITESPACE);
  }

  /** A 0x prefix reads the rest as a hexadecimal integer: Number("0x1F") is 31. */
  lemma HexPrefix(h: string)
    requires |h| >= 1 && AllRadix(h, 16)
    ensures ToNumber("0x" + h) == Finite(false, RadixValue(h, 16), 0)
  {
    HexUnpadded(h);
    RadixStart("0x" + h);
  }

  lemma HexUnpadded(h: string)
    requires |h| >= 1 && AllRadix(h, 16)
    ensures Strip("0x" + h, JS_WHITESPACE) == "0x" + h
    ensures PrefixBase("0x" + h) == 16 && ("0x" + h)[2..] == h
  {
    var t := "0x" + h;
    var last := h[|h| - 1];
    assert t[0] == '0' && t[1] == 'x' && t[|t| - 1] == last;
    assert RadixDigit(last) < 16;
    assert !IsJsSpace('0') && !IsJsSpace(last);
    StripKeeps(t, JS_WHITESPACE);
  }

  /** Text with nothing to strip and a radix prefix is read in that base. */
  lemma RadixStart(t: string)
    requires Strip(t, JS_WHITESPACE) == t && PrefixBase(t) != 0
    ensures var base := PrefixBase(t);
      ToNumber(t) == if |t| >= 3 && AllRadix(t[2..], base) then Finite(false, RadixValue(t[2..], base), 0) else NaN
  {
  }

  /** Unlike Python's int(), Number() takes no underscore between digits. */
  lemma UnderscoreIsNaN(a: string, b: string)
    requires |a| >= 1 && AllDigits(a) && |b| >= 1 && AllDigits(b)
    ensures ToNumber(a + "_" + b) == NaN
  {
    var s := a + "_" + b;
    assert s[0] == a[0] && s[|s| - 1] == b[|b| - 1];
    StripKeeps(s, JS_WHITESPACE);
    assert s[|a|] == '_';
    assert PrefixBase(s) == 0 by {
      if |a| == 1 {
        assert s[1] == '_';
      } else {
        assert s[1] == a[1];
      }
    }
    assert s != "Infinity" by {
      assert s[0] != 'I';
    }
    NoExponentMark(s);
    assert s[..|s|] == s;
    NoPoint(s);
    assert !AllDigits(s);
  }

  lemma NoExponentMark(s: string)
    requires forall i :: 0 <= i < |s| ==> IsDigit(s[i]) || s[i] == '_'
    ensures FirstOf(s, {'e', 'E'}) == |s|
  {
  }

  lemma NoPoint(s: string)
    requires forall i :: 0 <= i < |s| ==> IsDigit(s[i]) || s[i] == '_'
    ensures FirstOf(s, {'.'}) == |s|
  {
  }

  /** The digits of two strings read together: the first shifted past the second. */
  lemma {:induction false} DecimalValueAppend(a: string, b: string)
    requires AllDigits(a) && AllDigits(b)
    ensures DecimalValue(a + b) == DecimalValue(a) * Pow10(|b|) + DecimalValue(b)
  {
    if |b| > 0 {
      var ab := a + b;
      var b0 := b[..|b| - 1];
      assert ab[..|ab| - 1] == a + b0;
      assert ab[|ab| - 1] == b[|b| - 1];
      DecimalValueAppend(a, b0);
      var x, p, y, last := DecimalValue(a), Pow10(|b0|), DecimalValue(b0), DigitValue(b[|b| - 1]);
      assert DecimalValue(ab) == 10 * (x * p + y) + last;
      assert DecimalValue(b) == 10 * y + last;
      assert Pow10(|b|) == 10 * p;
      TenTimes(x, p, y, last);
    } else {
      assert a + b == a;
    }
  }

  lemma TenTimes(x: nat, p: nat, y: nat, last: nat)
    ensures 10 * (x * p + y) + last == x * (10 * p) + (10 * y + last)
  {
  }

  lemma {:induction false} DecimalValueBound(b: string)
    requires AllDigits(b)
    ensures DecimalValue(b) < Pow10(|b|)
  {
    if |b| > 0 {
      DecimalValueBound(b[..|b| - 1]);
    }
  }

  /** Text starting with a digit and ending outside the white space, without
      a radix prefix, is read as an unsigned decimal literal. */
  lemma DigitStart(s: string)
    requires |s| >= 1 && IsDigit(s[0]) && s[|s| - 1] !in JS_WHITESPACE && PrefixBase(s) == 0
    ensures ToNumber(s) == match DecimalLiteral(s)
                           case None => NaN
                           case Some((m, e)) => Finite(false, m, e)
  {
    StripKeeps(s, JS_WHITESPACE);
    assert s != "Infinity" by {
      assert s[0] != "Infinity"[0];
    }
  }

  /** A numeral with a fraction: the fraction is dropped by ToInt32, so
      Number("10.9") | 0 is 10. */
  lemma FractionTruncated(n: nat, f: string)
    requires AllDigits(f)
    ensures Truncate(ToNumber(FormatDecimal(n) + "." + f)) == n
  {
    var w := FormatDecimal(n);
    PointStart(w, f);
    PointLiteral(w, f);
    DigitStart(w + "." + f);
    DecimalValueFormat(n);
    FractionMagnitude(n, w, f);
  }

  lemma PointStart(w: string, f: string)
    requires |w| >= 1 && AllDigits(w) && AllDigits(f)
    ensures var s := w + "." + f;
            IsDigit(s[0]) && s[|s| - 1] !in JS_WHITESPACE && PrefixBase(s) == 0
  {
    var s := w + "." + f;
    assert s[0] == w[0];
    assert s[|s| - 1] == if |f| == 0 then '.' else f[|f| - 1];
    assert s[1] == if |w| == 1 then '.' else w[1];
  }

  lemma FractionMagnitude(n: nat, w: string, f: string)
    requires AllDigits(w) && AllDigits(f) && DecimalValue(w) == n
    ensures Magnitude(DecimalValue(w + f), -|f|) == n
  {
    DecimalValueAppend(w, f);
    DecimalValueBound(f);
    var scale := Pow10(|f|);
    DivOfScaled(n, scale, DecimalValue(f));
  }

  lemma DivOfScaled(n: nat, scale: nat, r: nat)
    requires scale >= 1 && r < scale
    ensures (n * scale + r) / scale == n
  {
    Bytes.ModUnique(n * scale + r, scale, n, r);
  }

  /** w "." f with decimal digits on both sides is read as their digits with the
      point |f| places from the right. */
  lemma PointLiteral(w: string, f: string)
    requires |w| >= 1 && AllDigits(w) && AllDigits(f)
    ensures DecimalLiteral(w + "." + f) == Some((DecimalValue(w + f), -|f|))
  {
    var s := w + "." + f;
    forall i | 0 <= i < |s|
      ensures s[i] !in {'e', 'E'}
    {
      if i < |w| {
        assert s[i] == w[i];
      } else if i > |w| {
        assert s[i] == f[i - |w| - 1];
      }
    }
    NoneOf(s, {'e', 'E'});
    assert s[..|s|] == s;
    PointMantissa(w, f);
  }

  lemma PointMantissa(w: string, f: string)
    requires |w| >= 1 && AllDigits(w) && AllDigits(f)
    ensures Mantissa(w + "." + f) == Some((DecimalValue(w + f), |f|))
  {
    var s := w + "." + f;
    forall j | 0 <= j < |w|
      ensures s[j] !in {'.'}
    {
      assert s[j] == w[j];
    }
    FirstOfAt(s, |w|, {'.'});
    assert s[..|w|] == w && s[|w| + 1..] == f;
  }

  /** A numeral with an exponent is scaled by that power of ten:
      Number("1e3") is 1000. */
  lemma ExponentScales(n: nat, k: nat)
    ensures Truncate(ToNumber(FormatDecimal(n) + "e" + FormatDecimal(k))) == n * Pow10(k)
  {
    var w := FormatDecimal(n);
    var x := FormatDecimal(k);
    var s := w + "e" + x;
    assert s[0] == w[0] && s[|s| - 1] == x[|x| - 1];
    assert PrefixBase(s) == 0 by {
      assert s[1] == if |w| == 1 then 'e' else w[1];
    }
    ExponentLiteral(w, x);
    DigitStart(s);
    DecimalValueFormat(n);
    DecimalValueFormat(k);
  }

  /** w "e" x with decimal digits on both sides is read as w times ten to the x. */
  lemma ExponentLiteral(w: string, x: string)
    requires |w| >= 1 && AllDigits(w) && |x| >= 1 && AllDigits(x)
    ensures DecimalLiteral(w + "e" + x) == Some((DecimalValue(w), DecimalValue(x) as int))
  {
    var s := w + "e" + x;
    forall j | 0 <= j < |w|
      ensures s[j] !in {'e', 'E'}
    {
      assert s[j] == w[j];
    }
    FirstOfAt(s, |w|, {'e', 'E'});
    assert s[..|w|] == w && s[|w| + 1..] == x;
    assert Exponent(x) == Some(DecimalValue(x) as int);
    NoneOf(w, {'.'});
    WholeMantissa(w);
  }
}
