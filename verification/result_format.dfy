/** How the calculator renders a result: a float is rounded to 6 decimal
    places, printed in fixed-point notation (`f"{result:f}"`, six fractional
    digits) and stripped of trailing zeros and then of a trailing dot; an
    integer is printed with `str`.

    Values are exact reals and the rounded value is kept as a sign and a
    count of millionths, so the printed digits are computed exactly. The sign
    is kept apart from the count because a negative value that rounds to zero
    is the float `-0.0`, which prints as "-0". */
module ResultFormat {
  import opened Wrappers
  import opened Text

  const Million: nat := 1000000

  /** A float after `round(x, 6)`: its sign and its magnitude in millionths. */
  datatype Rounded = Rounded(negative: bool, millionths: nat)

  function Pow10(k: nat): (r: nat)
    ensures r > 0
  {
    if k == 0 then 1 else 10 * Pow10(k - 1)
  }

  function DigitChar(d: nat): (c: char)
    requires d < 10
    ensures IsDigit(c)
  {
    ('0' as int + d) as char
  }

  function DigitValue(c: char): (d: nat)
    requires IsDigit(c)
    ensures d < 10 && DigitChar(d) == c
  {
    c as int - '0' as int
  }

  /** The number a string of decimal digits denotes (0 for the empty string). */
  function DigitsValue(s: string): nat
    requires AllDigits(s)
  {
    if |s| == 0 then 0 else DigitsValue(s[..|s| - 1]) * 10 + DigitValue(s[|s| - 1])
  }

  /** `str(n)` for a natural number: the canonical decimal numeral, which
      denotes `n` and has no leading zero. */
  function NatToString(n: nat): (r: string)
    ensures |r| > 0 && AllDigits(r)
    ensures DigitsValue(r) == n
    ensures r[0] == '0' ==> r == "0"
  {
    if n < 10 then [DigitChar(n)]
    else
      var prefix := NatToString(n / 10);
      var r := prefix + [DigitChar(n % 10)];
      assert r[..|r| - 1] == prefix;
      r
  }

  /** `str(i)` for an integer. */
  function IntToString(i: int): string {
    if i < 0 then "-" + NatToString(-i) else NatToString(i)
  }

  /** The `k` lowest decimal digits of `f`, zero-padded on the left. */
  function FixedDigits(f: nat, k: nat): (r: string)
    requires f < Pow10(k)
    ensures |r| == k && AllDigits(r)
    ensures DigitsValue(r) == f
  {
    if k == 0 then ""
    else
      var prefix := FixedDigits(f / 10, k - 1);
      var r := prefix + [DigitChar(f % 10)];
      assert r[..|r| - 1] == prefix;
      r
  }

  /** Python's `round(y)` on an exact value: the nearest integer, ties to even. */
  function RoundHalfEven(y: real): (n: int)
    ensures -0.5 <= y - n as real <= 0.5
    ensures (y - n as real == 0.5 || n as real - y == 0.5) ==> n % 2 == 0
  {
    var f := y.Floor;
    var d := y - f as real;
    if d < 0.5 then f
    else if d > 0.5 then f + 1
    else if f % 2 == 0 then f
    else f + 1
  }

  /** The nearest-with-ties-to-even integer is unique. */
  lemma RoundHalfEvenUnique(y: real, n: int)
    requires -0.5 <= y - n as real <= 0.5
    requires (y - n as real == 0.5 || n as real - y == 0.5) ==> n % 2 == 0
    ensures RoundHalfEven(y) == n
  {
    var m := RoundHalfEven(y);
    assert -1 <= m - n <= 1;
  }

  /** `round(x, 6)`. */
  function RoundToMillionths(x: real): Rounded {
    var n := RoundHalfEven(x * Million as real);
    Rounded(x < 0.0, if n < 0 then -n else n)
  }

  /** The exact value a rounded float stands for. */
  function Value(v: Rounded): real {
    (if v.negative then -1.0 else 1.0) * (v.millionths as real) / (Million as real)
  }

  /** `f"{v:f}"`: optional sign, integer part, a dot, six fractional digits. */
  function FixedPoint(v: Rounded): string {
    (if v.negative then "-" else "") + NatToString(v.millionths / Million) + "." + FixedDigits(v.millionths % Million, 6)
  }

  /** `f"{v:f}".rstrip('0').rstrip('.')`. */
  function Format(v: Rounded): string {
    RStripChar(RStripChar(FixedPoint(v), '0'), '.')
  }

  /** The whole float branch of the calculator's formatting. */
  function FormatFloat(x: real): string {
    Format(RoundToMillionths(x))
  }

  /** Position of the first occurrence of `c` in `s`. */
  function Find(s: string, c: char): (r: Option<nat>)
    ensures r.Some? ==> r.value < |s| && s[r.value] == c && c !in s[..r.value]
    ensures r.None? ==> c !in s
  {
    if |s| == 0 then None
    else if s[0] == c then Some(0)
    else match Find(s[1..], c)
      case None => None
      case Some(k) =>
        assert s[..k + 1] == [s[0]] + s[1..][..k];
        Some(k + 1)
  }

  /** Reads a decimal numeral with an optional leading minus and at most six
      fractional digits back into a sign and a count of millionths. */
  function Parse(s: string): Option<Rounded> {
    var negative := |s| > 0 && s[0] == '-';
    match ParseMagnitude(if negative then s[1..] else s)
    case Some(m) => Some(Rounded(negative, m))
    case None => None
  }

  /** The value, in millionths, of the numeral "whole.fraction". */
  function NumeralValue(whole: string, fraction: string): nat
    requires AllDigits(whole) && AllDigits(fraction) && |fraction| <= 6
  {
    DigitsValue(whole) * Million + DigitsValue(fraction) * Pow10(6 - |fraction|)
  }

  /** An unsigned numeral, "digits" or "digits.digits", in millionths. */
  function ParseMagnitude(body: string): Option<nat> {
    match Find(body, '.')
    case None =>
      if |body| > 0 && AllDigits(body) then Some(NumeralValue(body, "")) else None
    case Some(k) =>
      var whole := body[..k];
      var fraction := body[k + 1..];
      if |whole| > 0 && AllDigits(whole) && 1 <= |fraction| <= 6 && AllDigits(fraction)
      then Some(NumeralValue(whole, fraction))
      else None
  }

  // ---------------------------------------------------------------------------
  // Proofs about the formatted text

  /** Stripping a suffix character from a concatenation. */
  lemma {:induction false} RStripAppend(a: string, b: string, c: char)
    ensures RStripChar(b, c) == [] ==> RStripChar(a + b, c) == RStripChar(a, c)
    ensures RStripChar(b, c) != [] ==> RStripChar(a + b, c) == a + RStripChar(b, c)
  {
    if |b| > 0 && b[|b| - 1] == c {
      assert (a + b)[..|a + b| - 1] == a + b[..|b| - 1];
      RStripAppend(a, b[..|b| - 1], c);
    } else if |b| == 0 {
      assert a + b == a;
    }
  }

  /** Stripping trailing zeros from a digit string divides its value by a
      power of ten and loses nothing else; it empties the string exactly when
      the value is zero. */
  lemma {:induction false} StripZerosValue(s: string)
    requires AllDigits(s)
    ensures AllDigits(RStripChar(s, '0'))
    ensures DigitsValue(RStripChar(s, '0')) * Pow10(|s| - |RStripChar(s, '0')|) == DigitsValue(s)
    ensures RStripChar(s, '0') == [] <==> DigitsValue(s) == 0
  {
    if |s| > 0 {
      var init := s[..|s| - 1];
      if s[|s| - 1] == '0' {
        StripZerosValue(init);
        var t := RStripChar(init, '0');
        assert RStripChar(s, '0') == t;
        var k := Pow10(|init| - |t|);
        assert Pow10(|s| - |t|) == 10 * k;
        assert DigitsValue(s) == DigitsValue(init) * 10;
        ShiftByTen(DigitsValue(t), k);
      } else {
        assert RStripChar(s, '0') == s;
        assert DigitValue(s[|s| - 1]) != 0;
      }
    }
  }

  lemma ShiftByTen(x: nat, k: nat)
    ensures x * (10 * k) == (x * k) * 10
  {
  }

  /** Sign, integer part and, when the fraction digits `t` are not empty, a
      dot followed by them. */
  function Assemble(negative: bool, whole: string, t: string): string {
    (if negative then "-" else "") + whole + (if |t| == 0 then "" else "." + t)
  }

  /** The fractional digits that survive the stripping. */
  function StrippedFraction(v: Rounded): string {
    RStripChar(FixedDigits(v.millionths % Million, 6), '0')
  }

  lemma RStripNothing(s: string, c: char)
    requires |s| > 0 && s[|s| - 1] != c
    ensures RStripChar(s, c) == s
  {
  }

  lemma RStripLast(s: string, c: char)
    requires |s| > 0 && s[|s| - 1] == c
    ensures RStripChar(s, c) == RStripChar(s[..|s| - 1], c)
  {
  }

  /** A dot directly after `a` survives `rstrip('0')` and is the only thing `rstrip('.')` removes. */
  lemma StripBareDot(a: string)
    requires |a| > 0 && a[|a| - 1] != '.'
    ensures RStripChar(RStripChar(a + ".", '0'), '.') == a
  {
    var dotted := a + ".";
    RStripNothing(dotted, '0');
    RStripLast(dotted, '.');
    assert dotted[..|dotted| - 1] == a;
    RStripNothing(a, '.');
  }

  /** A text ending in a digit other than zero is left alone by both strips. */
  lemma StripNonZeroEnd(s: string)
    requires |s| > 0 && IsDigit(s[|s| - 1]) && s[|s| - 1] != '0'
    ensures RStripChar(RStripChar(s, '0'), '.') == s
  {
    RStripNothing(s, '0');
    RStripNothing(s, '.');
  }

  /** An all-zero fraction disappears together with its dot. */
  lemma StripZeroFraction(a: string, digits: string)
    requires |a| > 0 && a[|a| - 1] != '.' && AllDigits(digits)
    requires RStripChar(digits, '0') == []
    ensures RStripChar(RStripChar(a + "." + digits, '0'), '.') == a
  {
    RStripAppend(a + ".", digits, '0');
    StripBareDot(a);
  }

  /** A fraction with a non-zero digit keeps its dot and loses only its trailing zeros. */
  lemma StripNonZeroFraction(a: string, digits: string)
    requires |a| > 0 && a[|a| - 1] != '.' && AllDigits(digits)
    requires RStripChar(digits, '0') != []
    ensures RStripChar(RStripChar(a + "." + digits, '0'), '.') == a + "." + RStripChar(digits, '0')
  {
    var t := RStripChar(digits, '0');
    RStripAppend(a + ".", digits, '0');
    var s := (a + ".") + t;
    assert t[|t| - 1] == digits[|t| - 1];
    assert IsDigit(digits[|t| - 1]);
    assert s[|s| - 1] == t[|t| - 1];
    StripNonZeroEnd(s);
  }

  /** The stripped text is the sign, the integer part and, only when the
      fraction is non-zero, a dot and the fraction's digits without trailing zeros. */
  lemma FormatShape(v: Rounded)
    ensures Format(v) == Assemble(v.negative, NatToString(v.millionths / Million), StrippedFraction(v))
  {
    var sign := if v.negative then "-" else "";
    var whole := NatToString(v.millionths / Million);
    var digits := FixedDigits(v.millionths % Million, 6);
    assert FixedPoint(v) == (sign + whole) + "." + digits;
    StripFixedPointText(sign, whole, digits);
  }

  /** The same shape, stated on the three pieces of the fixed-point text. */
  lemma StripFixedPointText(sign: string, whole: string, digits: string)
    requires |whole| > 0 && AllDigits(whole) && AllDigits(digits)
    ensures var t := RStripChar(digits, '0');
      RStripChar(RStripChar((sign + whole) + "." + digits, '0'), '.')
        == (sign + whole) + (if |t| == 0 then "" else "." + t)
  {
    var a := sign + whole;
    assert a[|a| - 1] == whole[|whole| - 1];
    if RStripChar(digits, '0') == [] {
      StripZeroFraction(a, digits);
    } else {
      StripNonZeroFraction(a, digits);
    }
  }

  /** `Find` returns the first occurrence. */
  lemma {:induction false} FindFirst(s: string, c: char, k: nat)
    requires k < |s| && s[k] == c && c !in s[..k]
    ensures Find(s, c) == Some(k)
  {
    if k > 0 {
      assert s[0] == s[..k][0];
      assert s[1..][..k - 1] == s[..k][1..];
      FindFirst(s[1..], c, k - 1);
    }
  }

  lemma ParseWhole(whole: string)
    requires |whole| > 0 && AllDigits(whole)
    ensures ParseMagnitude(whole) == Some(NumeralValue(whole, ""))
  {
    assert '.' !in whole;
  }

  lemma ParseFraction(whole: string, t: string)
    requires |whole| > 0 && AllDigits(whole) && AllDigits(t) && 1 <= |t| <= 6
    ensures ParseMagnitude(whole + "." + t) == Some(NumeralValue(whole, t))
  {
    var body := whole + "." + t;
    assert '.' !in whole;
    assert body[..|whole|] == whole;
    FindFirst(body, '.', |whole|);
    assert body[|whole| + 1..] == t;
  }

  lemma ParseSign(negative: bool, body: string)
    requires |body| > 0 && body[0] != '-'
    ensures match ParseMagnitude(body)
      case Some(m) => Parse((if negative then "-" else "") + body) == Some(Rounded(negative, m))
      case None => true
  {
    var s := (if negative then "-" else "") + body;
    if negative {
      assert s[1..] == body;
    } else {
      assert s == body;
    }
  }

  /** Reading an assembled numeral back. */
  lemma ParseAssembled(negative: bool, whole: string, t: string)
    requires |whole| > 0 && AllDigits(whole) && AllDigits(t) && |t| <= 6
    ensures Parse(Assemble(negative, whole, t))
      == Some(Rounded(negative, NumeralValue(whole, t)))
  {
    var body := whole + (if |t| == 0 then "" else "." + t);
    assert Assemble(negative, whole, t) == (if negative then "-" else "") + body;
    assert body[0] == whole[0];
    if |t| == 0 {
      assert body == whole && t == "";
      ParseWhole(whole);
    } else {
      assert body == whole + "." + t;
      ParseFraction(whole, t);
    }
    ParseSign(negative, body);
  }

  /** The integer part and the surviving fraction digits still denote the
      whole count of millionths. */
  lemma StrippedFractionValue(v: Rounded)
    ensures AllDigits(StrippedFraction(v)) && |StrippedFraction(v)| <= 6
    ensures NumeralValue(NatToString(v.millionths / Million), StrippedFraction(v)) == v.millionths
    ensures StrippedFraction(v) == [] <==> v.millionths % Million == 0
  {
    var q := v.millionths / Million;
    var f := v.millionths % Million;
    var digits := FixedDigits(f, 6);
    var t := StrippedFraction(v);
    StripZerosValue(digits);
    assert DigitsValue(t) * Pow10(6 - |t|) == f;
    assert DigitsValue(NatToString(q)) == q;
    assert q * Million + f == v.millionths;
  }

  /** Formatting then parsing gives back the rounded value. */
  lemma FormatRoundTrip(v: Rounded)
    ensures Parse(Format(v)) == Some(v)
  {
    FormatShape(v);
    StrippedFractionValue(v);
    ParseAssembled(v.negative, NatToString(v.millionths / Million), StrippedFraction(v));
  }

  /** The character-level shape of a rendered float: never a trailing dot,
      a dot exactly when there is a fractional part, and after a dot at most
      six digits, the last of which is not zero. */
  predicate WellShaped(s: string, hasFraction: bool) {
    && |s| > 0 && s[|s| - 1] != '.'
    && ('.' in s <==> hasFraction)
    && forall k :: 0 <= k < |s| && s[k] == '.' ==> |s| - (k + 1) <= 6 && s[|s| - 1] != '0'
  }

  /** A non-empty digit string with no leading zero, as `str` writes a natural. */
  predicate Numeral(whole: string) {
    |whole| > 0 && AllDigits(whole) && (whole[0] == '0' ==> |whole| == 1)
  }

  /** At most six digits, the last of which is not zero. */
  predicate Fraction(t: string) {
    AllDigits(t) && |t| <= 6 && (|t| > 0 ==> t[|t| - 1] != '0')
  }

  /** The shape of an assembled numeral. */
  lemma AssembledShape(negative: bool, whole: string, t: string)
    requires Numeral(whole) && Fraction(t)
    ensures WellShaped(Assemble(negative, whole, t), |t| > 0)
  {
    var s := Assemble(negative, whole, t);
    var a := (if negative then "-" else "") + whole;
    assert forall k :: 0 <= k < |a| ==> a[k] != '.';
    if |t| == 0 {
      assert s == a;
    } else {
      assert s == a + "." + t;
      assert forall k :: 0 <= k < |a| ==> s[k] == a[k];
      assert forall k :: |a| < k < |s| ==> s[k] == t[k - |a| - 1] && IsDigit(t[k - |a| - 1]);
      assert s[|a|] == '.';
      assert s[|s| - 1] == t[|t| - 1];
    }
  }

  /** Every rendered rounded value is an optional minus, a numeral without
      leading zeros and, only when the value is not a whole number, a dot and
      at most six digits not ending in zero; so it is well shaped. */
  lemma FormattedShape(v: Rounded)
    ensures var whole := NatToString(v.millionths / Million);
      var t := StrippedFraction(v);
      && Format(v) == Assemble(v.negative, whole, t)
      && Numeral(whole) && Fraction(t)
      && (|t| > 0 <==> v.millionths % Million != 0)
    ensures WellShaped(Format(v), v.millionths % Million != 0)
  {
    var whole := NatToString(v.millionths / Million);
    var t := StrippedFraction(v);
    FormatShape(v);
    StrippedFractionValue(v);
    AssembledShape(v.negative, whole, t);
    ShapeCarriesOver(v, whole, t);
  }

  lemma ShapeCarriesOver(v: Rounded, whole: string, t: string)
    requires Format(v) == Assemble(v.negative, whole, t)
    requires WellShaped(Assemble(v.negative, whole, t), |t| > 0)
    requires |t| > 0 <==> v.millionths % Million != 0
    ensures WellShaped(Format(v), v.millionths % Million != 0)
  {
  }

  /** Re-rendering an already rendered result leaves it unchanged. */
  lemma ReformatIsIdentity(v: Rounded)
    ensures match Parse(Format(v)) case Some(w) => Format(w) == Format(v) case None => false
  {
    FormatRoundTrip(v);
  }

  /** The rounded value is within half a millionth of the float. */
  lemma RoundingIsNearest(x: real)
    ensures -0.5 / Million as real <= Value(RoundToMillionths(x)) - x <= 0.5 / Million as real
  {
    var y := x * Million as real;
    var n := RoundHalfEven(y);
    assert x >= 0.0 ==> n >= 0;
    assert x < 0.0 ==> n <= 0;
    assert Value(RoundToMillionths(x)) == n as real / Million as real;
  }

  /** An integer-valued float renders exactly as the integer does under `str`:
      `14.0` renders as "14". */
  lemma IntegralFloatRendersAsInteger(k: int)
    ensures FormatFloat(k as real) == IntToString(k)
  {
    var y := (k as real) * Million as real;
    assert y == (k * Million) as real;
    RoundHalfEvenUnique(y, k * Million);
    var v := RoundToMillionths(k as real);
    var a := if k < 0 then -k else k;
    assert v.millionths == a * Million;
    assert v.millionths / Million == a;
    assert v.millionths % Million == 0;
    StripZerosValue(FixedDigits(0, 6));
    FormatShape(v);
  }

  /** Rendering the value a rendered result denotes reproduces the same text,
      except for a negative value that rounded to zero ("-0"), whose sign the
      exact value does not carry. */
  lemma RenderingIsIdempotent(x: real)
    requires RoundToMillionths(x) != Rounded(true, 0)
    ensures FormatFloat(Value(RoundToMillionths(x))) == FormatFloat(x)
  {
    var v := RoundToMillionths(x);
    var c := v.millionths;
    var sign: int := if v.negative then -1 else 1;
    var x' := Value(v);
    assert x' * Million as real == (sign * c) as real;
    RoundHalfEvenUnique(x' * Million as real, sign * c);
    assert RoundToMillionths(x') == v;
  }
}
