/** Exact decimal stand-ins for the numeric text of G-code: Python's `float()` on plain decimals,
    `round(x, 3)`, `int(x)` and the text Python prints for an int or a 3-place float. Values are
    exact decimals, not IEEE doubles. */
module Numbers {
  import opened Wrappers
  import Text

  predicate IsDigit(c: char) { '0' <= c <= '9' }

  function DigitValue(c: char): (d: nat)
    requires IsDigit(c)
    ensures d < 10
  {
    (c as int) - ('0' as int)
  }

  function DigitChar(d: nat): (c: char)
    requires d < 10
    ensures IsDigit(c) && DigitValue(c) == d
  {
    (('0' as int) + d) as char
  }

  predicate AllDigits(s: string) {
    forall i :: 0 <= i < |s| ==> IsDigit(s[i])
  }

  /** Value of a run of decimal digits, most significant first. */
  function DigitsValue(s: string): nat
    requires AllDigits(s)
  {
    if s == [] then 0 else DigitsValue(s[..|s| - 1]) * 10 + DigitValue(s[|s| - 1])
  }

  /** `x` divided by ten `n` times. */
  function Shift(x: real, n: nat): (r: real)
    ensures x >= 0.0 ==> r >= 0.0
  {
    if n == 0 then x else Shift(x, n - 1) / 10.0
  }

  /** A decimal as written: `digits` scaled down by `places` decimal places, with its sign. */
  datatype Decimal = Decimal(negative: bool, digits: nat, places: nat)

  /** The exact number a `Decimal` denotes. */
  function Value(d: Decimal): (v: real)
    ensures d.negative ==> v <= 0.0
    ensures !d.negative ==> v >= 0.0
  {
    if d.negative then -Shift(d.digits as real, d.places) else Shift(d.digits as real, d.places)
  }

  /** Index of the first '.', or the length when there is none. */
  function PointIndex(s: string): (k: nat)
    ensures k <= |s|
    ensures forall i :: 0 <= i < k ==> s[i] != '.'
    ensures k < |s| ==> s[k] == '.'
  {
    if s == [] || s[0] == '.' then 0 else 1 + PointIndex(s[1..])
  }

  /** An unsigned decimal `ddd`, `ddd.`, `.ddd` or `ddd.ddd` with at least one digit, read as
      (all its digits, the number of digits after the point). */
  function ParseUnsigned(body: string): Option<(nat, nat)>
  {
    var k := PointIndex(body);
    var whole := body[..k];
    var frac := if k < |body| then body[k + 1..] else "";
    if AllDigits(whole) && AllDigits(frac) && |whole| + |frac| >= 1 then
      Some((DigitsValue(whole + frac), |frac|))
    else None
  }

  /** Python's `float(s)` restricted to plain decimal notation: surrounding whitespace is ignored,
      one optional sign, then an unsigned decimal. `None` is where Python raises `ValueError`. */
  function ParseDecimal(s: string): (r: Option<Decimal>)
    ensures Text.Strip(s) == [] ==> r == None
    ensures r.Some? ==> (r.value.negative <==> Text.Strip(s)[0] == '-')
  {
    var t := Text.Strip(s);
    if t == [] then None
    else
      var neg := t[0] == '-';
      var body := if t[0] == '-' || t[0] == '+' then t[1..] else t;
      match ParseUnsigned(body)
      case Some((n, p)) => Some(Decimal(neg, n, p))
      case None => None
  }

  /** Python's `round(x)` on an exact value: the nearest integer, ties to the even one. */
  function RoundHalfEven(x: real): (n: int)
    ensures n as real - 0.5 <= x <= n as real + 0.5
    ensures x - x.Floor as real == 0.5 ==> n % 2 == 0
  {
    var f := x.Floor;
    var d := x - f as real;
    if d < 0.5 then f
    else if d > 0.5 then f + 1
    else if f % 2 == 0 then f
    else f + 1
  }

  /** `round(x, 3)`, as a whole number of thousandths. */
  function RoundMilli(x: real): (m: int)
    ensures m as real / 1000.0 - 0.0005 <= x <= m as real / 1000.0 + 0.0005
  {
    RoundHalfEven(x * 1000.0)
  }

  /** Python's `int(x)` on a float: truncation toward zero. */
  function Truncate(x: real): (n: int)
    ensures x >= 0.0 ==> n as real <= x < n as real + 1.0
    ensures x < 0.0 ==> n as real - 1.0 < x <= n as real
  {
    if x >= 0.0 then x.Floor else -((-x).Floor)
  }

  /** Decimal digits of `n`, with no leading zero. */
  function FormatNat(n: nat): (s: string)
    ensures |s| >= 1 && AllDigits(s)
    decreases n
  {
    if n < 10 then [DigitChar(n)] else FormatNat(n / 10) + [DigitChar(n % 10)]
  }

  /** `str(n)` for a Python int. */
  function FormatInt(n: int): (s: string)
    ensures |s| >= 1
    ensures n < 0 <==> s[0] == '-'
  {
    if n < 0 then "-" + FormatNat(-n) else FormatNat(n)
  }

  /** The one, two or three digits Python prints after the point for `f` thousandths:
      trailing zeros dropped, but never fewer than one digit. */
  function MilliFraction(f: nat): (s: string)
    requires f < 1000
    ensures 1 <= |s| <= 3 && AllDigits(s)
  {
    var d1, d2, d3 := f / 100, (f / 10) % 10, f % 10;
    if f % 100 == 0 then [DigitChar(d1)]
    else if f % 10 == 0 then [DigitChar(d1), DigitChar(d2)]
    else [DigitChar(d1), DigitChar(d2), DigitChar(d3)]
  }

  /** Read back as digits, the fraction `MilliFraction` prints is `f` thousandths. */
  lemma MilliFractionValue(f: nat)
    requires f < 1000
    ensures var s := MilliFraction(f);
      && (|s| == 1 ==> DigitsValue(s) * 100 == f)
      && (|s| == 2 ==> DigitsValue(s) * 10 == f)
      && (|s| == 3 ==> DigitsValue(s) == f)
  {
    var d1, d2, d3 := f / 100, (f / 10) % 10, f % 10;
    var s1 := [DigitChar(d1)];
    var s2 := s1 + [DigitChar(d2)];
    var s3 := s2 + [DigitChar(d3)];
    assert DigitsValue(s1) == d1 by { assert s1[..0] == []; }
    assert DigitsValue(s2) == d1 * 10 + d2 by { assert s2[..1] == s1; }
    assert DigitsValue(s3) == (d1 * 10 + d2) * 10 + d3 by { assert s3[..2] == s2; }
    assert f == 100 * d1 + 10 * d2 + d3;
    if f % 100 == 0 {
      assert MilliFraction(f) == s1;
    } else if f % 10 == 0 {
      assert MilliFraction(f) == s2;
    } else {
      assert MilliFraction(f) == s3;
    }
  }

  /** `str(round(x, 3))` for a value of `m` thousandths, e.g. `400` prints as `0.4` and `2000`
      as `2.0`. */
  function FormatMilli(m: int): (s: string)
  {
    var a := if m < 0 then -m else m;
    (if m < 0 then "-" else "") + FormatNat(a / 1000) + "." + MilliFraction(a % 1000)
  }

  /** A printed number is one word: it holds no space, so `split(" ")` keeps it whole. */
  lemma FormatMilliWord(m: int)
    ensures |FormatMilli(m)| >= 3 && ' ' !in FormatMilli(m)
  {
    var a := if m < 0 then -m else m;
    var w, f := FormatNat(a / 1000), MilliFraction(a % 1000);
    var s := (if m < 0 then "-" else "") + w + "." + f;
    assert s == FormatMilli(m);
    forall i | 0 <= i < |s| ensures s[i] != ' ' {
      var k := if m < 0 then 1 else 0;
      if i >= k && i < k + |w| {
        assert s[i] == w[i - k];
      } else if i >= k + |w| + 1 {
        assert s[i] == f[i - k - |w| - 1];
      }
    }
  }

  /** A printed integer is one word as well. */
  lemma FormatIntWord(n: int)
    ensures ' ' !in FormatInt(n)
  {
    var s := FormatInt(n);
    var w := FormatNat(if n < 0 then -n else n);
    forall i | 0 <= i < |s| ensures s[i] != ' ' {
      if n < 0 && i > 0 {
        assert s[i] == w[i - 1];
      } else if n >= 0 {
        assert s[i] == w[i];
      }
    }
  }

  lemma {:induction false} FormatNatValue(n: nat)
    ensures DigitsValue(FormatNat(n)) == n
    decreases n
  {
    if n >= 10 {
      FormatNatValue(n / 10);
      var s := FormatNat(n);
      assert s[..|s| - 1] == FormatNat(n / 10);
    }
  }

  lemma {:induction false} DigitsConcat(a: string, b: string)
    requires AllDigits(a) && AllDigits(b)
    ensures DigitsValue(a + b) == DigitsValue(a) * Pow10(|b|) + DigitsValue(b)
  {
    if b != [] {
      var c, b0 := a + b, b[..|b| - 1];
      var d := DigitValue(b[|b| - 1]);
      assert c[..|c| - 1] == a + b0 && c[|c| - 1] == b[|b| - 1];
      DigitsConcat(a, b0);
      var va, p := DigitsValue(a), Pow10(|b0|);
      var x := DigitsValue(b0);
      assert DigitsValue(c) == DigitsValue(a + b0) * 10 + d;
      assert DigitsValue(b) == x * 10 + d;
      assert Pow10(|b|) == p * 10;
      ScaleByTen(va, p, x, d);
    } else {
      assert a + b == a;
    }
  }

  lemma ScaleByTen(x: int, y: int, u: int, d: int)
    ensures (x * y + u) * 10 + d == x * (y * 10) + (u * 10 + d)
  {
  }

  function Pow10(n: nat): (r: nat)
    ensures r >= 1
  {
    if n == 0 then 1 else 10 * Pow10(n - 1)
  }

  lemma DigitsNoPoint(s: string)
    requires AllDigits(s)
    ensures PointIndex(s) == |s|
  {
    if s != [] {
      DigitsNoPoint(s[1..]);
    }
  }

  lemma PointIndexAfterDigits(w: string, rest: string)
    requires AllDigits(w)
    ensures PointIndex(w + "." + rest) == |w|
  {
    if w != [] {
      assert (w + "." + rest)[1..] == w[1..] + "." + rest;
      PointIndexAfterDigits(w[1..], rest);
    }
  }

  /** A sign in front of an unpadded unsigned decimal is read as Python reads it. */
  lemma ParseSigned(neg: bool, body: string)
    requires body != [] && IsDigit(body[0]) && IsDigit(body[|body| - 1])
    requires ParseUnsigned(body).Some?
    ensures ParseDecimal((if neg then "-" else "") + body)
      == Some(Decimal(neg, ParseUnsigned(body).value.0, ParseUnsigned(body).value.1))
  {
    var s := (if neg then "-" else "") + body;
    assert s[|s| - 1] == body[|body| - 1];
    Text.StripUnpadded(s);
    assert Text.Strip(s) == s;
    if neg {
      assert s[0] == '-' && s[1..] == body;
    } else {
      assert s == body && s[0] != '-' && s[0] != '+';
    }
  }

  lemma ParsePointed(w: string, fr: string)
    requires AllDigits(w) && AllDigits(fr) && |w| >= 1
    ensures ParseUnsigned(w + "." + fr) == Some((DigitsValue(w + fr), |fr|))
  {
    var body := w + "." + fr;
    PointIndexAfterDigits(w, fr);
    assert body[..|w|] == w;
    assert body[|w| + 1..] == fr;
  }

  lemma ParseWhole(w: string)
    requires AllDigits(w) && |w| >= 1
    ensures ParseUnsigned(w) == Some((DigitsValue(w), 0))
  {
    DigitsNoPoint(w);
    assert w[..|w|] == w;
    assert w + "" == w;
  }

  /** The digits `FormatMilli` prints, read back, stand for the same thousandths. */
  lemma MilliDigitsValue(q: nat, f: nat)
    requires f < 1000
    ensures Shift(DigitsValue(FormatNat(q) + MilliFraction(f)) as real, |MilliFraction(f)|)
      == (1000 * q + f) as real / 1000.0
  {
    var w, fr := FormatNat(q), MilliFraction(f);
    MilliFractionValue(f);
    DigitsConcat(w, fr);
    FormatNatValue(q);
    var n := DigitsValue(w + fr);
    if |fr| == 1 {
      assert n == q * 10 + DigitsValue(fr);
      assert Shift(n as real, 1) == n as real / 10.0;
    } else if |fr| == 2 {
      assert n == q * 100 + DigitsValue(fr);
      assert Shift(n as real, 2) == n as real / 100.0 by {
        assert Shift(n as real, 1) == n as real / 10.0;
      }
    } else {
      assert n == q * 1000 + DigitsValue(fr);
      assert Shift(n as real, 3) == n as real / 1000.0 by {
        assert Shift(n as real, 1) == n as real / 10.0;
        assert Shift(n as real, 2) == n as real / 100.0;
      }
    }
  }

  lemma MilliTextParse(neg: bool, q: nat, f: nat)
    requires f < 1000
    ensures ParseDecimal((if neg then "-" else "") + (FormatNat(q) + "." + MilliFraction(f)))
      == Some(Decimal(neg, DigitsValue(FormatNat(q) + MilliFraction(f)), |MilliFraction(f)|))
  {
    var w, fr := FormatNat(q), MilliFraction(f);
    var body := w + "." + fr;
    ParsePointed(w, fr);
    assert body[0] == w[0] && body[|body| - 1] == fr[|fr| - 1];
    ParseSigned(neg, body);
  }

  /** Reading back what `FormatMilli` prints gives exactly the thousandths it was given. */
  lemma FormatMilliRoundTrip(m: int)
    ensures ParseDecimal(FormatMilli(m)).Some?
    ensures Value(ParseDecimal(FormatMilli(m)).value) == m as real / 1000.0
  {
    var a: nat := if m < 0 then -m else m;
    var q, f := a / 1000, a % 1000;
    assert FormatMilli(m) == (if m < 0 then "-" else "") + (FormatNat(q) + "." + MilliFraction(f));
    MilliTextParse(m < 0, q, f);
    MilliDigitsValue(q, f);
    assert 1000 * q + f == a;
  }

  /** Reading back what `FormatInt` prints gives the integer. */
  lemma FormatIntRoundTrip(n: int)
    ensures ParseDecimal(FormatInt(n)) == Some(Decimal(n < 0, if n < 0 then -n else n, 0))
  {
    var a: nat := if n < 0 then -n else n;
    var w := FormatNat(a);
    assert FormatInt(n) == (if n < 0 then "-" else "") + w;
    ParseWhole(w);
    FormatNatValue(a);
    ParseSigned(n < 0, w);
  }
}
