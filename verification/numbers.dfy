/** Numbers as the loaders see them: Python's `float()` applied to a cell's text,
    and `round(x, 2)`. Values are exact decimals (`real`), not binary floats. */
module PyNumber {
  import opened Base
  import opened PyText

  function Pow10(n: nat): (p: nat)
    ensures p >= 1
  {
    if n == 0 then 1 else 10 * Pow10(n - 1)
  }

  function DigitValue(c: char): nat
    requires IsDigit(c)
  {
    c as int - '0' as int
  }

  /** The number a string of decimal digits denotes, most significant first;
      the empty string denotes 0. */
  function DigitsValue(s: string): nat
    requires AllDigits(s)
    decreases |s|
  {
    if |s| == 0 then 0 else 10 * DigitsValue(s[..|s| - 1]) + DigitValue(s[|s| - 1])
  }

  /** The position of the first `c` in `s`, or `|s|` when `c` does not occur. */
  function IndexOf(s: string, c: char): (k: nat)
    ensures k <= |s|
    ensures forall j :: 0 <= j < k ==> s[j] != c
    ensures k < |s| ==> s[k] == c
    decreases |s|
  {
    if |s| == 0 || s[0] == c then 0 else 1 + IndexOf(s[1..], c)
  }

  /** The value of the numeral `whole.frac`. */
  function PointValue(whole: string, frac: string): real
    requires AllDigits(whole) && AllDigits(frac)
  {
    DigitsValue(whole) as real + DigitsValue(frac) as real / Pow10(|frac|) as real
  }

  /** `float()` on an unsigned numeral: digits with at most one '.', and at
      least one digit overall ("15", "1.5", "1." and ".5" are accepted). */
  function ParseUnsigned(s: string): Option<real> {
    var k := IndexOf(s, '.');
    if k == |s| then
      if IsDigitString(s) then Some(DigitsValue(s) as real) else None
    else
      var whole := s[..k];
      var frac := s[k + 1..];
      if AllDigits(whole) && AllDigits(frac) && |whole| + |frac| > 0 then
        Some(PointValue(whole, frac))
      else None
  }

  /** The whitespace `float()` ignores around a numeral. CPython turns every
      non-ASCII whitespace character into a space and then skips ASCII
      whitespace, so the four ASCII separators U+001C..U+001F, which
      `str.isspace()` accepts, are not skipped. */
  predicate FloatSpace(c: char) {
    IsSpace(c) && !('\U{1c}' <= c <= '\U{1f}')
  }

  /** Python's `float(s)` on decimal text: surrounding whitespace is ignored and
      one leading sign is allowed. `None` is the `ValueError` the source catches. */
  function ParseNumber(s: string): Option<real> {
    var t := StripWith(FloatSpace, s);
    if |t| > 0 && (t[0] == '+' || t[0] == '-') then
      match ParseUnsigned(t[1..])
      case None => None
      case Some(v) => Some(if t[0] == '-' then -v else v)
    else
      ParseUnsigned(t)
  }

  // ---------------------------------------------------------------------------
  // Rendering, the partner of parsing: `RenderDecimal(n, scale)` is the text of
  // n / 10^scale with exactly `scale` fraction digits, the way a spreadsheet
  // shows a value with a fixed number of decimals.

  function DigitChar(d: nat): (c: char)
    requires d < 10
    ensures IsDigit(c) && DigitValue(c) == d
  {
    ('0' as int + d) as char
  }

  /** The decimal digits of `n`, without leading zeros. */
  function NatDigits(n: nat): (s: string)
    ensures IsDigitString(s) && DigitsValue(s) == n
    decreases n
  {
    if n < 10 then
      [DigitChar(n)]
    else
      var front := NatDigits(n / 10);
      var s := front + [DigitChar(n % 10)];
      assert s[..|s| - 1] == front;
      s
  }

  function Zeros(k: nat): (s: string)
    ensures |s| == k && AllDigits(s)
  {
    seq(k, _ => '0')
  }

  function Abs(n: int): nat {
    if n < 0 then -n else n
  }

  /** The digits of `m`, left-padded with zeros so that at least one digit
      stands before the last `scale`. */
  function Padded(m: nat, scale: nat): string {
    var ds := NatDigits(m);
    if |ds| <= scale then Zeros(scale + 1 - |ds|) + ds else ds
  }

  /** The unsigned text of m / 10^scale. */
  function RenderUnsigned(m: nat, scale: nat): string {
    var padded := Padded(m, scale);
    var cut := |padded| - scale;
    if scale == 0 then padded else padded[..cut] + "." + padded[cut..]
  }

  function RenderDecimal(n: int, scale: nat): string {
    var body := RenderUnsigned(Abs(n), scale);
    if n < 0 then "-" + body else body
  }

  lemma {:induction false} DigitsConcat(a: string, b: string)
    requires AllDigits(a) && AllDigits(b)
    ensures AllDigits(a + b)
    ensures DigitsValue(a + b) == DigitsValue(a) * Pow10(|b|) + DigitsValue(b)
    decreases |b|
  {
    if |b| == 0 {
      assert a + b == a;
    } else {
      var n := |b| - 1;
      var front := b[..n];
      var ab := a + b;
      DigitsConcat(a, front);
      var d := DigitValue(b[n]);
      var x, y, p := DigitsValue(a), DigitsValue(front), Pow10(n);
      assert DigitsValue(ab) == 10 * DigitsValue(a + front) + d by {
        assert ab[..|ab| - 1] == a + front;
        assert ab[|ab| - 1] == b[n];
      }
      assert DigitsValue(b) == 10 * y + d;
      MulShift(x, y, p, d);
    }
  }

  /** The arithmetic step of `DigitsConcat`, kept apart from the sequence facts. */
  lemma MulShift(x: nat, y: nat, p: nat, d: nat)
    ensures 10 * (x * p + y) + d == x * (10 * p) + (10 * y + d)
  {
  }

  lemma {:induction false} ZerosValue(k: nat)
    ensures DigitsValue(Zeros(k)) == 0
    decreases k
  {
    if k > 0 {
      assert Zeros(k)[..k - 1] == Zeros(k - 1);
      ZerosValue(k - 1);
    }
  }

  /** A digit string with one '.' inserted parses to the integer part plus the
      fraction digits scaled down by their count. */
  lemma UnsignedWithPoint(w: string, f: string)
    requires IsDigitString(w) && AllDigits(f)
    ensures ParseUnsigned(w + "." + f) == Some(PointValue(w, f))
  {
    var s := w + "." + f;
    var k := IndexOf(s, '.');
    assert k == |w| by {
      assert s[|w|] == '.';
      assert forall j :: 0 <= j < |w| ==> s[j] == w[j];
    }
    assert s[..k] == w;
    assert s[k + 1..] == f;
  }

  lemma PaddedValue(m: nat, scale: nat)
    ensures IsDigitString(Padded(m, scale)) && |Padded(m, scale)| > scale
    ensures DigitsValue(Padded(m, scale)) == m
  {
    var ds := NatDigits(m);
    if |ds| <= scale {
      DigitsConcat(Zeros(scale + 1 - |ds|), ds);
      ZerosValue(scale + 1 - |ds|);
    }
  }

  /** The value of `w.f` is the value of the digits `w + f` scaled down. */
  lemma PointValueScaled(w: string, f: string)
    requires AllDigits(w) && AllDigits(f)
    ensures AllDigits(w + f)
    ensures PointValue(w, f) == DigitsValue(w + f) as real / Pow10(|f|) as real
  {
    DigitsConcat(w, f);
    var x, y, p := DigitsValue(w), DigitsValue(f), Pow10(|f|);
    RealShift(x, y, p);
  }

  lemma RealShift(x: nat, y: nat, p: nat)
    requires p >= 1
    ensures x as real + y as real / p as real == (x * p + y) as real / p as real
  {
    assert (x * p) as real == x as real * p as real;
  }

  /** A plain digit string parses to its value. */
  lemma UnsignedDigits(s: string)
    requires IsDigitString(s)
    ensures ParseUnsigned(s) == Some(DigitsValue(s) as real)
  {
    assert IndexOf(s, '.') == |s|;
  }

  lemma UnsignedRendered(m: nat, scale: nat)
    ensures ParseUnsigned(RenderUnsigned(m, scale)) == Some(m as real / Pow10(scale) as real)
  {
    if scale == 0 {
      UnsignedRenderedWhole(m);
    } else {
      UnsignedRenderedPoint(m, scale);
    }
  }

  /** With scale 0 the rendering is the plain digits. */
  lemma UnsignedRenderedWhole(m: nat)
    ensures ParseUnsigned(RenderUnsigned(m, 0)) == Some(m as real / Pow10(0) as real)
  {
    var ds := NatDigits(m);
    assert RenderUnsigned(m, 0) == ds;
    UnsignedDigits(ds);
    assert Pow10(0) == 1;
    DivideByOne(m as real);
  }

  lemma DivideByOne(x: real)
    ensures x / 1 as real == x
  {
  }

  /** With a positive scale the rendering has a point `scale` digits from
      the end. */
  lemma UnsignedRenderedPoint(m: nat, scale: nat)
    requires scale > 0
    ensures ParseUnsigned(RenderUnsigned(m, scale)) == Some(m as real / Pow10(scale) as real)
  {
    var padded := Padded(m, scale);
    var text := RenderUnsigned(m, scale);
    PaddedValue(m, scale);
    var cut := |padded| - scale;
    var w, f := padded[..cut], padded[cut..];
    assert text == w + "." + f;
    assert w + f == padded;
    UnsignedWithPoint(w, f);
    PointValueScaled(w, f);
    assert |f| == scale;
    assert DigitsValue(w + f) == m;
    var dv := DigitsValue(w + f);
    assert PointValue(w, f) == dv as real / Pow10(|f|) as real;
  }

  /** Rendering then parsing gives back the exact value: for every integer `n`
      and scale, `float(RenderDecimal(n, scale)) == n / 10^scale`. */
  lemma ParseRendered(n: int, scale: nat)
    ensures ParseNumber(RenderDecimal(n, scale)) == Some(n as real / Pow10(scale) as real)
  {
    if n < 0 {
      ParseRenderedNegative(n, scale);
    } else {
      ParseRenderedNatural(n, scale);
    }
  }

  lemma ParseRenderedNatural(n: nat, scale: nat)
    ensures ParseNumber(RenderDecimal(n, scale)) == Some(n as real / Pow10(scale) as real)
  {
    var body := RenderUnsigned(n, scale);
    assert RenderDecimal(n, scale) == body;
    UnsignedRendered(n, scale);
    RenderedShape(n, scale);
    ParsePlain(body);
  }

  lemma ParseRenderedNegative(n: int, scale: nat)
    requires n < 0
    ensures ParseNumber(RenderDecimal(n, scale)) == Some(n as real / Pow10(scale) as real)
  {
    var m := Abs(n);
    var body := RenderUnsigned(m, scale);
    var P := Pow10(scale) as real;
    UnsignedRendered(m, scale);
    RenderedShape(m, scale);
    NegateQuotient(m as real, n as real, P);
    ParseNegative(RenderDecimal(n, scale), body, m as real / P, n as real / P);
  }

  lemma NegateQuotient(a: real, b: real, p: real)
    requires p > 0.0 && b == -a
    ensures -(a / p) == b / p
  {
  }

  lemma RenderedShape(m: nat, scale: nat)
    ensures var body := RenderUnsigned(m, scale);
            |body| > 0 && IsDigit(body[0]) && IsDigit(body[|body| - 1])
  {
    PaddedValue(m, scale);
  }

  /** Text with a digit at each end is parsed as it stands. */
  lemma ParsePlain(body: string)
    requires |body| > 0 && IsDigit(body[0]) && IsDigit(body[|body| - 1])
    ensures ParseNumber(body) == ParseUnsigned(body)
  {
    ParseUnsignedText(body);
  }

  /** Text with no whitespace at its ends and no leading sign is parsed as an
      unsigned numeral. */
  lemma ParseUnsignedText(s: string)
    requires |s| > 0 && !IsSpace(s[0]) && !IsSpace(s[|s| - 1])
    requires s[0] != '+' && s[0] != '-'
    ensures ParseNumber(s) == ParseUnsigned(s)
  {
    assert StripWith(FloatSpace, s) == s;
  }

  /** A '-' followed by a numeral parses to the negated value. */
  lemma ParseNegative(text: string, body: string, v: real, w: real)
    requires text == "-" + body && w == -v
    requires |body| > 0 && IsDigit(body[|body| - 1])
    requires ParseUnsigned(body) == Some(v)
    ensures ParseNumber(text) == Some(w)
  {
    assert text[|text| - 1] == body[|body| - 1];
    assert StripWith(FloatSpace, text) == text;
    assert text[1..] == body;
  }

  /** Every character of an accepted unsigned numeral is a digit or '.'. */
  lemma UnsignedChars(u: string, j: nat)
    requires ParseUnsigned(u).Some? && j < |u|
    ensures IsDigit(u[j]) || u[j] == '.'
  {
    var k := IndexOf(u, '.');
    if k < |u| && j != k {
      var whole, frac := u[..k], u[k + 1..];
      if j < k {
        assert u[j] == whole[j];
      } else {
        assert u[j] == frac[j - k - 1];
      }
    }
  }

  /** Text holding one of the separators U+001C..U+001F anywhere is rejected
      by `float()`, although `strip()` would remove it at either end. */
  lemma SeparatorRejected(s: string, k: nat)
    requires k < |s| && '\U{1c}' <= s[k] <= '\U{1f}'
    ensures ParseNumber(s) == None
  {
    var t := StripWith(FloatSpace, s);
    var i: nat :| CutAt(FloatSpace, s, i, t);
    var cut: char -> bool := FloatSpace;
    assert !cut(s[k]);
    CutKeeps(FloatSpace, s, i, t, k);
    var j := k - i;
    if |t| > 0 && (t[0] == '+' || t[0] == '-') {
      assert j > 0;
      if ParseUnsigned(t[1..]).Some? {
        UnsignedChars(t[1..], j - 1);
        assert false;
      }
    } else if ParseUnsigned(t).Some? {
      UnsignedChars(t, j);
      assert false;
    }
  }

  /** Decimal-comma text, as a spreadsheet in a Turkish locale writes it,
      parses to the intended value once ',' is turned into '.'. */
  lemma CommaDecimal(w: string, f: string, s: string)
    requires IsDigitString(w) && IsDigitString(f)
    requires s == w + "," + f
    ensures ParseNumber(Replace(s, ',', '.')) == Some(PointValue(w, f))
  {
    var text := Replace(s, ',', '.');
    assert text == w + "." + f;
    UnsignedWithPoint(w, f);
    ParsePlain(text);
  }

  /** "150,25" reads as 150.25. */
  lemma CommaExample(s: string)
    requires s == "150,25"
    ensures ParseNumber(Replace(s, ',', '.')) == Some(150.25)
  {
    var w, f := "150", "25";
    assert s == w + "," + f;
    Digits150(w);
    Digits25(f);
    CommaDecimal(w, f, s);
    PointValueOf(w, f, 150, 25, 100);
  }

  /** The value of `w.f` from the values of its two digit strings. */
  lemma PointValueOf(w: string, f: string, a: nat, b: nat, p: nat)
    requires AllDigits(w) && AllDigits(f)
    requires DigitsValue(w) == a && DigitsValue(f) == b && Pow10(|f|) == p
    ensures PointValue(w, f) == a as real + b as real / p as real
  {
  }

  lemma Digits150(w: string)
    requires w == "150"
    ensures IsDigitString(w) && DigitsValue(w) == 150
  {
    assert w[..2] == "15";
    assert "15"[..1] == "1";
    assert "1"[..0] == "";
  }

  lemma Digits25(f: string)
    requires f == "25"
    ensures IsDigitString(f) && DigitsValue(f) == 25 && Pow10(|f|) == 100
  {
    assert Pow10(2) == 100;
    assert f[..1] == "2";
    assert "2"[..0] == "";
  }

  // ---------------------------------------------------------------------------
  // Rounding.

  /** Python's `round()` of `y` to an integer: the nearest integer, ties going
      to the even one. */
  function RoundHalfEven(y: real): (k: int)
    ensures -0.5 <= y - k as real <= 0.5
    ensures (y - k as real == 0.5 || y - k as real == -0.5) ==> k % 2 == 0
  {
    var f := y.Floor;
    var d := y - f as real;
    if d < 0.5 then f
    else if d > 0.5 then f + 1
    else if f % 2 == 0 then f
    else f + 1
  }

  /** The two properties above pin the rounding down: no other integer has them. */
  lemma RoundHalfEvenUnique(y: real, k: int)
    requires -0.5 <= y - k as real <= 0.5
    requires (y - k as real == 0.5 || y - k as real == -0.5) ==> k % 2 == 0
    ensures k == RoundHalfEven(y)
  {
    var j := RoundHalfEven(y);
    assert -1.0 <= (j - k) as real <= 1.0;
  }

  /** `x` has at most two decimals. */
  ghost predicate OnHundredths(x: real) {
    (x * 100.0).Floor as real == x * 100.0
  }

  /** Python's `round(x, 2)` on the exact value `x`. */
  function Round2(x: real): (r: real)
    ensures OnHundredths(r)
    ensures -0.005 <= x - r <= 0.005
  {
    var k := RoundHalfEven(x * 100.0);
    Hundredths(x, k);
    k as real / 100.0
  }

  lemma Hundredths(x: real, k: int)
    requires -0.5 <= x * 100.0 - k as real <= 0.5
    ensures OnHundredths(k as real / 100.0)
    ensures -0.005 <= x - k as real / 100.0 <= 0.005
  {
    var r := k as real / 100.0;
    assert r * 100.0 == k as real;
  }

  /** A value that already has at most two decimals is left as it is, so
      rounding twice is rounding once. */
  lemma Round2Fixes(x: real)
    requires OnHundredths(x)
    ensures Round2(x) == x
  {
    var k := (x * 100.0).Floor;
    RoundHalfEvenUnique(x * 100.0, k);
  }

  lemma Round2Idempotent(x: real)
    ensures Round2(Round2(x)) == Round2(x)
  {
    Round2Fixes(Round2(x));
  }
}
