/** JavaScript numbers as the listing form stores them: `Number(value)` applied
    to the text of a number input, and the `<` comparison the submit check uses.
    Values are exact reals (no rounding to double precision); NaN is kept
    because it makes every comparison false. */
module JsNumbers {
  import opened Wrappers
  import opened Decimal

  datatype JsNumber = Finite(value: real) | NaN

  /** JavaScript's `a < b`: false whenever either side is NaN. */
  function Less(a: JsNumber, b: JsNumber): (r: bool)
    ensures a.NaN? || b.NaN? ==> !r
    ensures a.Finite? && b.Finite? ==> (r <==> a.value < b.value)
  {
    a.Finite? && b.Finite? && a.value < b.value
  }

  function Pow10(e: nat): (p: nat)
    ensures p >= 1
  {
    if e == 0 then 1 else 10 * Pow10(e - 1)
  }

  /** x * 10^e for any integer exponent e. */
  function Scale(x: real, e: int): real {
    if e >= 0 then x * (Pow10(e) as real) else x / (Pow10(-e) as real)
  }

  /** The index of the first occurrence of `a` or `b` in `s` at or after
      `from`, or |s| when there is none. */
  function FindFrom(s: string, a: char, b: char, from: nat): (k: nat)
    requires from <= |s|
    ensures from <= k <= |s|
    decreases |s| - from
  {
    if from == |s| then |s| else if s[from] == a || s[from] == b then from else FindFrom(s, a, b, from + 1)
  }

  /** The index of the first occurrence of `a` or `b` in `s`, or |s| when there is none. */
  function FindFirst(s: string, a: char, b: char): (k: nat)
    ensures k <= |s|
  {
    FindFrom(s, a, b, 0)
  }

  /** The search stops at an `a` or `b`, and passes none on the way. */
  lemma {:induction false} FindFromMeaning(s: string, a: char, b: char, from: nat)
    requires from <= |s|
    ensures var k := FindFrom(s, a, b, from);
      && (k < |s| ==> s[k] == a || s[k] == b)
      && forall j :: from <= j < k ==> s[j] != a && s[j] != b
    decreases |s| - from
  {
    if from < |s| && s[from] != a && s[from] != b {
      FindFromMeaning(s, a, b, from + 1);
    }
  }

  lemma FindFirstMeaning(s: string, a: char, b: char)
    ensures var k := FindFirst(s, a, b);
      && (k < |s| ==> s[k] == a || s[k] == b)
      && forall j :: 0 <= j < k ==> s[j] != a && s[j] != b
  {
    FindFromMeaning(s, a, b, 0);
  }

  /** The scanner's test that every character of `s` from `from` on is a digit. */
  predicate DigitsFrom(s: string, from: nat)
    requires from <= |s|
    decreases |s| - from
  {
    from == |s| || (IsDigit(s[from]) && DigitsFrom(s, from + 1))
  }

  predicate DigitRun(s: string) {
    DigitsFrom(s, 0)
  }

  lemma {:induction false} DigitsFromMeaning(s: string, from: nat)
    requires from <= |s|
    ensures DigitsFrom(s, from) <==> forall j :: from <= j < |s| ==> IsDigit(s[j])
    decreases |s| - from
  {
    if from < |s| {
      DigitsFromMeaning(s, from + 1);
    }
  }

  lemma DigitRunMeaning(s: string)
    ensures DigitRun(s) <==> AllDigits(s)
  {
    DigitsFromMeaning(s, 0);
  }

  /** An optionally signed run of at least one digit (an exponent). */
  function ParseExponent(s: string): Option<int> {
    if |s| >= 1 && (s[0] == '+' || s[0] == '-') then
      if |s| >= 2 && DigitRun(s[1..]) then
        Some(if s[0] == '-' then -(DigitsValue(s[1..]) as int) else DigitsValue(s[1..]) as int)
      else None
    else if |s| >= 1 && DigitRun(s) then Some(DigitsValue(s) as int)
    else None
  }

  /** The digits of a mantissa read as one integer, and how many of them
      follow the '.'. */
  datatype Mantissa = Mantissa(digits: nat, scale: nat)

  /** An unsigned literal as digits times a power of ten. */
  datatype Literal = Literal(digits: nat, exponent: int)

  /** Digits with an optional '.' and fraction, at least one digit in all. */
  function ParseMantissa(s: string): Option<Mantissa> {
    var dot := FindFirst(s, '.', '.');
    if dot == |s| then
      if |s| >= 1 && DigitRun(s) then Some(Mantissa(DigitsValue(s), 0)) else None
    else
      var whole := s[..dot];
      var fraction := s[dot + 1..];
      if DigitRun(whole) && DigitRun(fraction) && |whole| + |fraction| >= 1 then
        Some(Mantissa(DigitsValue(whole + fraction), |fraction|))
      else None
  }

  /** An unsigned decimal literal, a mantissa then an optional exponent, read
      as its digits and the power of ten they are scaled by. */
  function ParseUnsigned(s: string): Option<Literal> {
    var m := FindFirst(s, 'e', 'E');
    if m == |s| then
      var mantissa := ParseMantissa(s);
      if mantissa.Some? then Some(Literal(mantissa.value.digits, -(mantissa.value.scale as int))) else None
    else
      var mantissa := ParseMantissa(s[..m]);
      var exponent := ParseExponent(s[m + 1..]);
      if mantissa.Some? && exponent.Some? then Some(Literal(mantissa.value.digits, exponent.value - mantissa.value.scale))
      else None
  }

  /** The value of an unsigned literal, or NaN. */
  function UnsignedValue(s: string): JsNumber {
    var parsed := ParseUnsigned(s);
    if parsed.Some? then Finite(Scale(parsed.value.digits as real, parsed.value.exponent)) else NaN
  }

  /** Unary minus: NaN stays NaN. */
  function Negate(n: JsNumber): JsNumber {
    if n.Finite? then Finite(-n.value) else NaN
  }

  /** `Number(value)` for the text of a number input: the empty string is 0, a
      signed decimal literal is its value, anything else is NaN. */
  function ToNumber(s: string): (n: JsNumber)
    ensures s == [] ==> n == Finite(0.0)
  {
    if s == [] then Finite(0.0)
    else if s[0] == '-' then Negate(UnsignedValue(s[1..]))
    else if s[0] == '+' then UnsignedValue(s[1..])
    else UnsignedValue(s)
  }

  lemma FindFirstInDigits(s: string, a: char, b: char)
    requires AllDigits(s) && !IsDigit(a) && !IsDigit(b)
    ensures FindFirst(s, a, b) == |s|
  {
    FindFirstMeaning(s, a, b);
  }

  lemma MantissaOfDigits(s: string)
    requires |s| >= 1 && AllDigits(s)
    ensures ParseMantissa(s) == Some(Mantissa(DigitsValue(s), 0))
  {
    FindFirstInDigits(s, '.', '.');
    DigitRunMeaning(s);
  }

  lemma ParseDigitsOnly(s: string)
    requires |s| >= 1 && AllDigits(s)
    ensures ParseUnsigned(s) == Some(Literal(DigitsValue(s), 0))
  {
    FindFirstInDigits(s, 'e', 'E');
    MantissaOfDigits(s);
    UnsignedWithoutExponent(s, DigitsValue(s), 0, 0);
  }

  lemma ToNumberOfDigits(s: string)
    requires |s| >= 1 && AllDigits(s)
    ensures ToNumber(s) == Finite(DigitsValue(s) as real)
  {
    assert IsDigit(s[0]);
    ParseDigitsOnly(s);
    assert Pow10(0) == 1;
  }

  /** A leading '-' negates the value of an unsigned literal and a leading
      '+' leaves it as it is; a sign on something that is not a literal
      gives NaN. */
  lemma ToNumberOfSigned(s: string)
    requires s != [] && s[0] != '-' && s[0] != '+'
    ensures ToNumber("-" + s) == Negate(ToNumber(s))
    ensures ToNumber("+" + s) == ToNumber(s)
  {
    assert ("-" + s)[1..] == s;
    assert ("+" + s)[1..] == s;
  }

  lemma ToNumberOfNegatedDigits(s: string)
    requires |s| >= 1 && AllDigits(s)
    ensures ToNumber("-" + s) == Finite(-(DigitsValue(s) as real))
  {
    assert IsDigit(s[0]);
    ToNumberOfDigits(s);
    ToNumberOfSigned(s);
  }

  lemma FindFirstAfter(p: string, rest: string, a: char, b: char)
    requires forall j :: 0 <= j < |p| ==> p[j] != a && p[j] != b
    requires rest != [] && (rest[0] == a || rest[0] == b)
    ensures FindFirst(p + rest, a, b) == |p|
  {
    FindFirstMeaning(p + rest, a, b);
    assert (p + rest)[|p|] == rest[0];
  }

  lemma MantissaWithDot(w: string, f: string)
    requires AllDigits(w) && AllDigits(f) && |w| + |f| >= 1
    ensures ParseMantissa(w + "." + f) == Some(Mantissa(DigitsValue(w + f), |f|))
  {
    var s := w + ("." + f);
    assert w + "." + f == s;
    DigitRunMeaning(w);
    DigitRunMeaning(f);
    FindFirstAfter(w, "." + f, '.', '.');
    assert s[..|w|] == w;
    assert s[|w| + 1..] == f;
  }

  /** A mantissa of digits and one '.' holds no exponent marker. */
  lemma NoMarkerInMantissa(w: string, f: string)
    requires AllDigits(w) && AllDigits(f)
    ensures var mantissa := w + "." + f;
      forall j :: 0 <= j < |mantissa| ==> mantissa[j] != 'e' && mantissa[j] != 'E'
  {
    var mantissa := w + "." + f;
    forall j | 0 <= j < |mantissa|
      ensures mantissa[j] != 'e' && mantissa[j] != 'E'
    {
      if j < |w| {
        assert mantissa[j] == w[j];
      } else if j > |w| {
        assert mantissa[j] == f[j - |w| - 1];
      }
    }
  }

  /** The search for an exponent marker runs past a mantissa "w.f", and
      stops at a marker right after it. */
  lemma MarkerSearch(w: string, f: string, rest: string)
    requires AllDigits(w) && AllDigits(f)
    requires rest == [] || rest[0] == 'e' || rest[0] == 'E'
    ensures FindFirst(w + "." + f + rest, 'e', 'E') == |w| + 1 + |f|
  {
    NoMarkerInMantissa(w, f);
    var mantissa := w + "." + f;
    if rest == [] {
      assert mantissa + rest == mantissa;
      FindFirstMeaning(mantissa, 'e', 'E');
    } else {
      FindFirstAfter(mantissa, rest, 'e', 'E');
    }
  }

  /** The search for an exponent marker runs past digits and stops at a
      marker right after them. */
  lemma MarkerAfterDigits(w: string, rest: string)
    requires AllDigits(w)
    requires rest != [] && (rest[0] == 'e' || rest[0] == 'E')
    ensures FindFirst(w + rest, 'e', 'E') == |w|
  {
    FindFirstAfter(w, rest, 'e', 'E');
  }

  /** An unsigned literal without an exponent is its mantissa's digits, scaled down. */
  lemma UnsignedWithoutExponent(mantissa: string, digits: nat, scale: nat, power: int)
    requires FindFirst(mantissa, 'e', 'E') == |mantissa|
    requires ParseMantissa(mantissa) == Some(Mantissa(digits, scale))
    requires power == -(scale as int)
    ensures ParseUnsigned(mantissa) == Some(Literal(digits, power))
  {
  }

  /** An unsigned literal with an exponent is its mantissa's digits, scaled
      by the exponent less the fraction's length. */
  lemma UnsignedWithExponent(mantissa: string, marker: char, tail: string, digits: nat, scale: nat, exponent: int)
    requires FindFirst(mantissa + ([marker] + tail), 'e', 'E') == |mantissa|
    requires ParseMantissa(mantissa) == Some(Mantissa(digits, scale))
    requires ParseExponent(tail) == Some(exponent)
    ensures ParseUnsigned(mantissa + [marker] + tail) == Some(Literal(digits, exponent - scale))
  {
    var s := mantissa + ([marker] + tail);
    assert mantissa + [marker] + tail == s;
    assert s[..|mantissa|] == mantissa;
    assert s[|mantissa| + 1..] == tail;
  }

  /** The value of an exponent written as an optional sign and digits. */
  function ExponentValue(sign: string, x: string): int {
    if sign == "-" then -(DigitsValue(x) as int) else DigitsValue(x) as int
  }

  /** An optionally signed run of digits is the exponent it spells. */
  lemma ExponentOfDigits(sign: string, x: string)
    requires sign == "" || sign == "+" || sign == "-"
    requires |x| >= 1 && AllDigits(x)
    ensures ParseExponent(sign + x) == Some(ExponentValue(sign, x))
  {
    DigitRunMeaning(x);
    if sign != "" {
      assert (sign + x)[1..] == x;
    } else {
      assert sign + x == x;
    }
  }

  /** The text of an unsigned literal, with no sign in front, converts to its value. */
  lemma ToNumberOfUnsigned(s: string, digits: nat, exponent: int)
    requires s != [] && s[0] != '-' && s[0] != '+'
    requires ParseUnsigned(s) == Some(Literal(digits, exponent))
    ensures ToNumber(s) == Finite(Scale(digits as real, exponent))
  {
  }

  /** A mantissa "w.f" starts with a digit or the '.', never with a sign. */
  lemma MantissaUnsigned(w: string, f: string, rest: string)
    requires AllDigits(w)
    ensures (w + "." + f + rest)[0] != '-' && (w + "." + f + rest)[0] != '+'
  {
    assert (w + "." + f + rest)[0] == if |w| > 0 then w[0] else '.';
  }

  /** Scaling by a negative power of ten divides. */
  lemma ScaleDown(x: real, n: nat)
    ensures Scale(x, -(n as int)) == x / Pow10(n) as real
  {
    assert Pow10(0) == 1;
  }

  /** The decimal literal "w.f" reads as the digits of w and f together,
      scaled down by the length of f. */
  lemma ParseDecimal(w: string, f: string)
    requires AllDigits(w) && AllDigits(f) && |w| + |f| >= 1
    ensures ParseUnsigned(w + "." + f) == Some(Literal(DigitsValue(w + f), -|f|))
  {
    var s := w + "." + f;
    MarkerSearch(w, f, []);
    assert s + [] == s;
    MantissaWithDot(w, f);
    UnsignedWithoutExponent(s, DigitsValue(w + f), |f|, -|f|);
  }

  /** `Number("w.f")` is the digits of w and f read together, divided by
      10 to the length of f: "99.5" is 995 / 10. */
  lemma ToNumberOfDecimal(w: string, f: string)
    requires AllDigits(w) && AllDigits(f) && |w| + |f| >= 1
    ensures ToNumber(w + "." + f) == Finite(DigitsValue(w + f) as real / Pow10(|f|) as real)
  {
    ParseDecimal(w, f);
    MantissaUnsigned(w, f, []);
    assert w + "." + f + [] == w + "." + f;
    ToNumberOfUnsigned(w + "." + f, DigitsValue(w + f), -|f|);
    ScaleDown(DigitsValue(w + f) as real, |f|);
  }

  /** A mantissa, an exponent marker and an exponent convert to the
      mantissa's digits scaled by the exponent less the fraction's length. */
  lemma ToNumberWithExponent(mantissa: string, marker: char, tail: string, digits: nat, scale: nat, exponent: int, power: int)
    requires mantissa != [] && mantissa[0] != '-' && mantissa[0] != '+'
    requires FindFirst(mantissa + ([marker] + tail), 'e', 'E') == |mantissa|
    requires ParseMantissa(mantissa) == Some(Mantissa(digits, scale))
    requires ParseExponent(tail) == Some(exponent)
    requires power == exponent - scale
    ensures ToNumber(mantissa + [marker] + tail) == Finite(Scale(digits as real, power))
  {
    UnsignedWithExponent(mantissa, marker, tail, digits, scale, exponent);
    assert (mantissa + [marker] + tail)[0] == mantissa[0];
    ToNumberOfUnsigned(mantissa + [marker] + tail, digits, power);
  }

  /** `Number("w.fEx")`, x optionally signed: the digits of w and f read
      together, times 10 to the exponent less the length of f; "2.5E-2" is
      25 times 10 to the -3. */
  lemma ToNumberOfScientific(w: string, f: string, marker: char, sign: string, x: string)
    requires AllDigits(w) && AllDigits(f) && |w| + |f| >= 1
    requires marker == 'e' || marker == 'E'
    requires sign == "" || sign == "+" || sign == "-"
    requires |x| >= 1 && AllDigits(x)
    ensures ToNumber(w + "." + f + [marker] + (sign + x))
         == Finite(Scale(DigitsValue(w + f) as real, ExponentValue(sign, x) - |f|))
  {
    var mantissa := w + "." + f;
    MarkerSearch(w, f, [marker] + (sign + x));
    MantissaWithDot(w, f);
    ExponentOfDigits(sign, x);
    MantissaUnsigned(w, f, []);
    assert mantissa + [] == mantissa;
    ToNumberWithExponent(mantissa, marker, sign + x, DigitsValue(w + f), |f|, ExponentValue(sign, x), ExponentValue(sign, x) - |f|);
  }

  /** `Number("wEx")`, x optionally signed: the digits of w times 10 to the
      exponent; "1e3" is 1000. */
  lemma ToNumberOfIntegerScientific(w: string, marker: char, sign: string, x: string)
    requires |w| >= 1 && AllDigits(w)
    requires marker == 'e' || marker == 'E'
    requires sign == "" || sign == "+" || sign == "-"
    requires |x| >= 1 && AllDigits(x)
    ensures ToNumber(w + [marker] + (sign + x)) == Finite(Scale(DigitsValue(w) as real, ExponentValue(sign, x)))
  {
    MarkerAfterDigits(w, [marker] + (sign + x));
    MantissaOfDigits(w);
    ExponentOfDigits(sign, x);
    assert IsDigit(w[0]);
    ToNumberWithExponent(w, marker, sign + x, DigitsValue(w), 0, ExponentValue(sign, x), ExponentValue(sign, x));
  }

  /** `Number(String(i))` is `i` for every integer: the text a number input
      holds after showing an integral value converts back to that value. */
  lemma ToNumberOfIntString(i: int)
    ensures ToNumber(IntToString(i)) == Finite(i as real)
  {
    if i < 0 {
      ToNumberOfNegatedDigits(NatToString(-i));
      NatToStringRoundTrip(-i);
    } else {
      ToNumberOfDigits(NatToString(i));
      NatToStringRoundTrip(i);
    }
  }
}
