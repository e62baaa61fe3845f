/** Character strings: decimal digits and their values, decimal and hexadecimal
    rendering, splitting on a separator as Python's str.split(sep) and
    JavaScript's String.prototype.split(sep) do, and stripping a set of
    characters from both ends as Python's str.strip does. */
module Text {

  predicate IsDigit(c: char) { '0' <= c <= '9' }

  function DigitValue(c: char): (r: nat)
    requires IsDigit(c)
    ensures r < 10
  {
    (c as int) - ('0' as int)
  }

  function DigitChar(d: nat): (c: char)
    requires d < 10
    ensures IsDigit(c) && DigitValue(c) == d
  {
    ('0' as int + d) as char
  }

  predicate AllDigits(s: string)
  {
    forall i :: 0 <= i < |s| ==> IsDigit(s[i])
  }

  /** A decimal numeral as str(n) writes it: digits only, no leading zero. */
  predicate Canonical(s: string)
  {
    |s| >= 1 && AllDigits(s) && (s[0] == '0' ==> |s| == 1)
  }

  /** The value of a string of decimal digits, most significant digit first. */
  function DecimalValue(s: string): nat
    requires AllDigits(s)
  {
    if |s| == 0 then 0 else 10 * DecimalValue(s[..|s| - 1]) + DigitValue(s[|s| - 1])
  }

  /** The decimal rendering of n, as Python's str(n) and JavaScript's String(n). */
  function FormatDecimal(n: nat): (r: string)
    ensures |r| >= 1 && AllDigits(r)
    ensures r[0] == '0' <==> n == 0
    ensures |r| == 1 <==> n < 10
  {
    if n < 10 then [DigitChar(n)] else FormatDecimal(n / 10) + [DigitChar(n % 10)]
  }

  lemma FormatDecimalCanonical(n: nat)
    ensures Canonical(FormatDecimal(n))
  {
  }

  /** Reading back a rendered number gives the number. */
  lemma {:induction false} DecimalValueFormat(n: nat)
    ensures DecimalValue(FormatDecimal(n)) == n
  {
    if n >= 10 {
      var r := FormatDecimal(n);
      assert r[..|r| - 1] == FormatDecimal(n / 10);
      DecimalValueFormat(n / 10);
    }
  }

  lemma {:induction false} LeadingNonZeroPositive(s: string)
    requires |s| >= 1 && AllDigits(s) && s[0] != '0'
    ensures DecimalValue(s) >= 1
  {
    if |s| > 1 {
      LeadingNonZeroPositive(s[..|s| - 1]);
    }
  }

  /** Rendering the value of a canonical numeral gives the numeral back. */
  lemma {:induction false} FormatDecimalValue(s: string)
    requires Canonical(s)
    ensures FormatDecimal(DecimalValue(s)) == s
  {
    var last := s[|s| - 1];
    if |s| == 1 {
      assert DigitChar(DigitValue(last)) == last;
    } else {
      var p := s[..|s| - 1];
      assert Canonical(p);
      LeadingNonZeroPositive(p);
      FormatDecimalValue(p);
      var v := DecimalValue(s);
      assert v / 10 == DecimalValue(p) && v % 10 == DigitValue(last);
      assert DigitChar(DigitValue(last)) == last;
      assert s == p + [last];
    }
  }

  /** Concatenation regroups: text appended after `a` stays after `a`. */
  lemma Append3(a: string, b: string, c: string)
    ensures a + b + c == a + (b + c)
  {
  }

  // --- Separated fields -------------------------------------------------------

  /** The fields joined with the separator between neighbours. */
  function Join(parts: seq<string>, sep: char): string
    requires |parts| >= 1
  {
    if |parts| == 1 then parts[0] else parts[0] + [sep] + Join(parts[1..], sep)
  }

  /** The fields of s between occurrences of sep; an empty string has one empty field. */
  function Split(s: string, sep: char): (r: seq<string>)
    ensures |r| >= 1
    ensures forall i :: 0 <= i < |r| ==> sep !in r[i]
    ensures Join(r, sep) == s
  {
    if |s| == 0 then [""]
    else
      var rest := Split(s[1..], sep);
      if s[0] == sep then
        assert [sep] + Join(rest, sep) == s;
        [""] + rest
      else
        var r := [[s[0]] + rest[0]] + rest[1..];
        assert r[1..] == rest[1..];
        assert Join(r, sep) == [s[0]] + Join(rest, sep);
        r
  }

  lemma {:induction false} SplitNoSeparator(w: string, sep: char)
    requires sep !in w
    ensures Split(w, sep) == [w]
  {
    if |w| > 0 {
      SplitNoSeparator(w[1..], sep);
      assert [w[0]] + w[1..] == w;
    }
  }

  lemma {:induction false} SplitFirstField(w: string, t: string, sep: char)
    requires sep !in w
    ensures Split(w + [sep] + t, sep) == [w] + Split(t, sep)
  {
    if |w| == 0 {
      assert (w + [sep] + t)[1..] == t;
    } else {
      assert (w + [sep] + t)[1..] == w[1..] + [sep] + t;
      SplitFirstField(w[1..], t, sep);
      assert [w[0]] + w[1..] == w;
    }
  }

  /** Splitting joined fields that do not contain the separator recovers them. */
  lemma {:induction false} SplitJoin(parts: seq<string>, sep: char)
    requires |parts| >= 1
    requires forall i :: 0 <= i < |parts| ==> sep !in parts[i]
    ensures Split(Join(parts, sep), sep) == parts
  {
    if |parts| == 1 {
      SplitNoSeparator(parts[0], sep);
    } else {
      SplitFirstField(parts[0], Join(parts[1..], sep), sep);
      SplitJoin(parts[1..], sep);
      assert [parts[0]] + parts[1..] == parts;
    }
  }

  // --- Hexadecimal -------------------------------------------------------------

  /** The upper-case hexadecimal digit for v, as printf's %X writes it. */
  function HexDigitUpper(v: nat): (c: char)
    requires v < 16
    ensures ('0' <= c <= '9') || ('A' <= c <= 'F')
  {
    if v < 10 then ('0' as int + v) as char else ('A' as int + v - 10) as char
  }

  /** A byte as two upper-case hexadecimal digits, as printf's %02X writes it. */
  function HexByteUpper(b: nat): (r: string)
    requires b < 256
    ensures |r| == 2
  {
    [HexDigitUpper(b / 16), HexDigitUpper(b % 16)]
  }
  // --- Dotted quads --------------------------------------------------------------

  /** The dotted-quad text of four octets. */
  function Dotted(a: nat, b: nat, c: nat, d: nat): string
  {
    Join([FormatDecimal(a), FormatDecimal(b), FormatDecimal(c), FormatDecimal(d)], '.')
  }

  lemma DottedFields(a: nat, b: nat, c: nat, d: nat)
    ensures Split(Dotted(a, b, c, d), '.')
            == [FormatDecimal(a), FormatDecimal(b), FormatDecimal(c), FormatDecimal(d)]
  {
    var fa, fb, fc, fd := FormatDecimal(a), FormatDecimal(b), FormatDecimal(c), FormatDecimal(d);
    NumeralsSplit([fa, fb, fc, fd]);
  }

  /** Numerals joined by dots split back into the same numerals. */
  lemma NumeralsSplit(parts: seq<string>)
    requires |parts| >= 1 && forall i :: 0 <= i < |parts| ==> AllDigits(parts[i])
    ensures Split(Join(parts, '.'), '.') == parts
  {
    forall i | 0 <= i < |parts|
      ensures '.' !in parts[i]
    {
      NoDotInDigits(parts[i]);
    }
    SplitJoin(parts, '.');
  }

  lemma NoDotInDigits(s: string)
    requires AllDigits(s)
    ensures '.' !in s
  {
  }

  /** Three numerals joined by dots split back into the three. */
  lemma DottedTriple(x: string, y: string, z: string)
    requires AllDigits(x) && AllDigits(y) && AllDigits(z)
    ensures Split(Join([x, y, z], '.'), '.') == [x, y, z]
  {
    NumeralsSplit([x, y, z]);
  }

  /** Four dot-free fields joined by dots split back into the four. */
  lemma FourFields(w: string, x: string, y: string, z: string)
    requires '.' !in w && '.' !in x && '.' !in y && '.' !in z
    ensures Split(Join([w, x, y, z], '.'), '.') == [w, x, y, z]
  {
    SplitJoin([w, x, y, z], '.');
  }

  /** The characters str.isspace() accepts: those str.strip() and int()
      skip and `\s` matches in a str pattern. */
  const WHITESPACE: set<char> := {
    '\t', '\n', '\U{000B}', '\U{000C}', '\r', '\U{001C}', '\U{001D}', '\U{001E}', '\U{001F}', ' ',
    '\U{0085}', '\U{00A0}', '\U{1680}', '\U{2000}', '\U{2001}', '\U{2002}', '\U{2003}', '\U{2004}',
    '\U{2005}', '\U{2006}', '\U{2007}', '\U{2008}', '\U{2009}', '\U{200A}', '\U{2028}', '\U{2029}',
    '\U{202F}', '\U{205F}', '\U{3000}'}

  // --- str.strip ---------------------------------------------------------------------------

  /** s without its leading characters from cs. */
  function TrimStart(s: string, cs: set<char>): (r: string)
    ensures |r| <= |s|
  {
    if |s| > 0 && s[0] in cs then TrimStart(s[1..], cs) else s
  }

  /** s without its trailing characters from cs. */
  function TrimEnd(s: string, cs: set<char>): (r: string)
    ensures |r| <= |s|
  {
    if |s| > 0 && s[|s| - 1] in cs then TrimEnd(s[..|s| - 1], cs) else s
  }

  /** str.strip(cs). */
  function Strip(s: string, cs: set<char>): string
  {
    TrimEnd(TrimStart(s, cs), cs)
  }

  /** What strip keeps: a middle part of s that neither starts nor ends with
      a character from cs, everything before and after it being from cs. */
  lemma {:induction false} StripMiddle(s: string, cs: set<char>)
    ensures var r, i := Strip(s, cs), |s| - |TrimStart(s, cs)|;
            && 0 <= i <= i + |r| <= |s| && r == s[i..i + |r|]
              && (forall k :: 0 <= k < i ==> s[k] in cs)
              && (forall k :: i + |r| <= k < |s| ==> s[k] in cs)
              && (|r| > 0 ==> r[0] !in cs && r[|r| - 1] !in cs)
  {
    var t := TrimStart(s, cs);
    TrimStartSuffix(s, cs);
    TrimEndPrefix(t, cs);
    var i := |s| - |t|;
    var r := Strip(s, cs);
    assert r == s[i..i + |r|];
  }

  lemma {:induction false} TrimStartSuffix(s: string, cs: set<char>)
    ensures var r := TrimStart(s, cs);
            && r == s[|s| - |r|..]
            && (forall k :: 0 <= k < |s| - |r| ==> s[k] in cs)
            && (|r| > 0 ==> r[0] !in cs)
  {
    if |s| > 0 && s[0] in cs {
      TrimStartSuffix(s[1..], cs);
    }
  }

  lemma {:induction false} TrimEndPrefix(s: string, cs: set<char>)
    ensures var r := TrimEnd(s, cs);
            && r == s[..|r|]
            && (forall k :: |r| <= k < |s| ==> s[k] in cs)
            && (|r| > 0 ==> r[|r| - 1] !in cs)
  {
    if |s| > 0 && s[|s| - 1] in cs {
      TrimEndPrefix(s[..|s| - 1], cs);
    }
  }

  /** A string that starts and ends outside cs is its own strip. */
  lemma StripKeeps(s: string, cs: set<char>)
    requires |s| > 0 ==> s[0] !in cs && s[|s| - 1] !in cs
    ensures Strip(s, cs) == s
  {
    if |s| > 0 {
      TrimStartPadding("", s, cs);
      TrimEndPadding(s, "", cs);
      assert "" + s == s && s + "" == s;
    }
  }

  /** Characters from cs on either side are what strip removes. */
  lemma {:induction false} StripPadding(pre: string, s: string, post: string, cs: set<char>)
    requires |s| > 0 && s[0] !in cs && s[|s| - 1] !in cs
    requires forall k :: 0 <= k < |pre| ==> pre[k] in cs
    requires forall k :: 0 <= k < |post| ==> post[k] in cs
    ensures Strip(pre + s + post, cs) == s
  {
    assert pre + s + post == pre + (s + post);
    TrimStartPadding(pre, s + post, cs);
    TrimEndPadding(s, post, cs);
  }

  lemma {:induction false} TrimStartPadding(pre: string, s: string, cs: set<char>)
    requires |s| > 0 && s[0] !in cs
    requires forall k :: 0 <= k < |pre| ==> pre[k] in cs
    ensures TrimStart(pre + s, cs) == s
  {
    if |pre| > 0 {
      assert (pre + s)[1..] == pre[1..] + s;
      TrimStartPadding(pre[1..], s, cs);
    }
  }

  lemma {:induction false} TrimEndPadding(s: string, post: string, cs: set<char>)
    requires |s| > 0 && s[|s| - 1] !in cs
    requires forall k :: 0 <= k < |post| ==> post[k] in cs
    ensures TrimEnd(s + post, cs) == s
  {
    if |post| > 0 {
      assert (s + post)[..|s + post| - 1] == s + post[..|post| - 1];
      TrimEndPadding(s, post[..|post| - 1], cs);
    } else {
      assert s + post == s;
    }
  }

  /** Padding drawn from cs adds no character outside cs. */
  lemma PaddingKeepsOut(pre: string, s: string, post: string, cs: set<char>, c: char)
    requires c !in s && c !in cs
    requires forall k :: 0 <= k < |pre| ==> pre[k] in cs
    requires forall k :: 0 <= k < |post| ==> post[k] in cs
    ensures c !in pre + s + post
  {
    forall k | 0 <= k < |pre + s + post|
      ensures (pre + s + post)[k] != c
    {
      if k < |pre| {
        assert (pre + s + post)[k] == pre[k];
      } else if k < |pre| + |s| {
        assert (pre + s + post)[k] == s[k - |pre|];
      } else {
        assert (pre + s + post)[k] == post[k - |pre| - |s|];
      }
    }
  }
}
