/**
 * `java.math.BigDecimal` as far as the checker uses it: construction from text,
 * `compareTo`, and the "has a fractional part" test `stripTrailingZeros().scale() > 0`.
 */
module Decimals {
  import opened Wrappers
  import JavaStrings

  /** The number `unscaled × 10^(-scale)`; `scale` is a Java `int`. */
  datatype Decimal = Decimal(unscaled: int, scale: int)

  const IntMin: int := -0x8000_0000
  const IntMax: int := 0x7FFF_FFFF

  predicate InIntRange(n: int) { IntMin <= n <= IntMax }

  predicate IsDigit(c: char) { '0' <= c <= '9' }

  predicate AllDigits(s: string) {
    forall i :: 0 <= i < |s| ==> IsDigit(s[i])
  }

  function DigitValue(c: char): nat {
    if IsDigit(c) then c as int - '0' as int else 0
  }

  /** The value of a run of decimal digits. */
  function DigitsValue(s: string): nat {
    if s == [] then 0 else DigitsValue(s[..|s| - 1]) * 10 + DigitValue(s[|s| - 1])
  }

  /** `m × 10^k`, by repeated multiplication by ten. */
  function Shift(m: int, k: nat): int {
    if k == 0 then m else Shift(m, k - 1) * 10
  }


  /** Position of the first `c` in `s`, or `|s|` when there is none. */
  function IndexOf(s: string, c: char): (k: nat)
    ensures k <= |s|
  {
    if s == [] then 0 else if s[0] == c then 0 else 1 + IndexOf(s[1..], c)
  }

  /** A character that never occurs is found at the end. */
  lemma {:induction false} IndexOfAbsent(s: string, c: char)
    requires forall i :: 0 <= i < |s| ==> s[i] != c
    ensures IndexOf(s, c) == |s|
  {
    if s != [] {
      assert forall i :: 0 <= i < |s[1..]| ==> s[1..][i] == s[i + 1];
      IndexOfAbsent(s[1..], c);
    }
  }

  /** A first occurrence is found where it is. */
  lemma {:induction false} IndexOfFirst(s: string, c: char, k: nat)
    requires k < |s| && s[k] == c
    requires forall i :: 0 <= i < k ==> s[i] != c
    ensures IndexOf(s, c) == k
  {
    if k > 0 {
      assert forall i :: 0 <= i < k - 1 ==> s[1..][i] == s[i + 1];
      IndexOfFirst(s[1..], c, k - 1);
    }
  }

  /** Position of the first exponent mark `e` or `E`, or `|s|`. */
  function IndexOfExponentMark(s: string): (k: nat)
    ensures k <= |s|
  {
    if s == [] then 0 else if s[0] == 'e' || s[0] == 'E' then 0 else 1 + IndexOfExponentMark(s[1..])
  }

  /** Text without an exponent mark has its mark at the end. */
  lemma {:induction false} ExponentMarkAbsent(s: string)
    requires forall i :: 0 <= i < |s| ==> s[i] != 'e' && s[i] != 'E'
    ensures IndexOfExponentMark(s) == |s|
  {
    if s != [] {
      assert forall i :: 0 <= i < |s[1..]| ==> s[1..][i] == s[i + 1];
      ExponentMarkAbsent(s[1..]);
    }
  }

  /** A sign character that may open a number or an exponent. */
  predicate IsSign(c: char) { c == '+' || c == '-' }

  /** The text after an optional leading sign. */
  function Unsigned(s: string): (r: string)
    ensures |r| <= |s|
  {
    if |s| > 0 && IsSign(s[0]) then s[1..] else s
  }

  /**
   * The exponent after `e`/`E`: an optional sign and at least one digit, whose value must be
   * a Java `int` ("Exponent overflow" otherwise).
   */
  function ParseExponent(s: string): (r: Option<int>)
    ensures r.Some? ==> InIntRange(r.value)
  {
    var digits := Unsigned(s);
    if |digits| == 0 || !AllDigits(digits) then None
    else
      var magnitude: int := DigitsValue(digits);
      var e: int := if s[0] == '-' then -magnitude else magnitude;
      if InIntRange(e) then Some(e) else None
  }

  /** The significand and, after the first `e` or `E`, the exponent text. */
  function SplitExponent(body: string): (r: (string, Option<string>)) {
    var k := IndexOfExponentMark(body);
    (body[..k], if k < |body| then Some(body[k + 1..]) else None)
  }

  /**
   * The digits of a significand with at most one decimal point and at least one digit:
   * the value of all its digits and the number of digits after the point.
   */
  function ParseSignificand(m: string): (r: Option<(nat, nat)>)
  {
    var d := IndexOf(m, '.');
    var intPart := m[..d];
    var fracPart := if d < |m| then m[d + 1..] else [];
    if !AllDigits(intPart) || !AllDigits(fracPart) || |intPart| + |fracPart| == 0 then None
    else Some((DigitsValue(intPart + fracPart), |fracPart|))
  }

  /**
   * `new BigDecimal(s)`; `None` where the constructor throws `NumberFormatException`.
   * The text is an optional sign, digits with at most one decimal point (at least one digit
   * in all), and an optional exponent; the resulting scale must be a Java `int`.
   */
  function Parse(s: string): (r: Option<Decimal>)
    ensures r.Some? ==> InIntRange(r.value.scale)
  {
    var (m, e) := SplitExponent(Unsigned(s));
    var (magnitude, fracLen) :- ParseSignificand(m);
    var exp :- if e.Some? then ParseExponent(e.value) else Some(0);
    var scale := fracLen - exp;
    if !InIntRange(scale) then None
    else Some(Decimal(WithSign(s, magnitude), scale))
  }

  /** The magnitude, negated when the text opens with a minus sign. */
  function WithSign(s: string, magnitude: nat): int {
    if |s| > 0 && s[0] == '-' then -(magnitude as int) else magnitude
  }

  /** A body without an exponent mark is all significand. */
  lemma NoExponentMark(body: string)
    requires forall i :: 0 <= i < |body| ==> body[i] != 'e' && body[i] != 'E'
    ensures SplitExponent(body) == (body, None)
  {
    ExponentMarkAbsent(body);
    assert body[..|body|] == body;
  }

  /** A text without exponent parses to its significand's digits, scaled by its fraction length. */
  lemma ParseWithoutExponent(s: string)
    requires SplitExponent(Unsigned(s)).1 == None
    requires ParseSignificand(SplitExponent(Unsigned(s)).0).Some?
    requires ParseSignificand(SplitExponent(Unsigned(s)).0).value.1 <= IntMax
    ensures Parse(s).Some?
    ensures Parse(s).value.unscaled == WithSign(s, ParseSignificand(SplitExponent(Unsigned(s)).0).value.0)
    ensures Parse(s).value.scale == ParseSignificand(SplitExponent(Unsigned(s)).0).value.1
  {
  }

  /** A text with an exponent: the significand's digits, scaled by fraction length less exponent. */
  lemma ParseWithExponent(s: string, m: string, e: string, magnitude: nat, fracLen: nat, exp: int)
    requires SplitExponent(Unsigned(s)) == (m, Some(e))
    requires ParseSignificand(m) == Some((magnitude, fracLen))
    requires ParseExponent(e) == Some(exp)
    requires InIntRange(fracLen - exp)
    ensures Parse(s) == Some(Decimal(WithSign(s, magnitude), fracLen - exp))
  {
  }

  /** A run of digits: its value, scale zero. */
  lemma SignificandDigits(m: string)
    requires |m| > 0 && AllDigits(m)
    ensures ParseSignificand(m) == Some((DigitsValue(m), 0))
  {
    assert forall i :: 0 <= i < |m| ==> m[i] != '.';
    IndexOfAbsent(m, '.');
    assert m[..|m|] == m;
    assert m + [] == m;
  }

  /** Digits, a point, digits: the value of all digits, scaled by the fraction length. */
  lemma SignificandPointed(intPart: string, fracPart: string)
    requires AllDigits(intPart) && AllDigits(fracPart) && |intPart| + |fracPart| > 0
    ensures ParseSignificand(intPart + "." + fracPart) == Some((DigitsValue(intPart + fracPart), |fracPart|))
  {
    var m := intPart + "." + fracPart;
    assert m[|intPart|] == '.';
    assert forall i :: 0 <= i < |intPart| ==> m[i] == intPart[i] && m[i] != '.';
    IndexOfFirst(m, '.', |intPart|);
    assert m[..|intPart|] == intPart;
    assert m[|intPart| + 1..] == fracPart;
  }

  /** A plain run of digits is a whole number of scale zero. */
  lemma ParseDigits(s: string)
    requires |Unsigned(s)| > 0 && AllDigits(Unsigned(s))
    ensures Parse(s) == Some(Decimal(WithSign(s, DigitsValue(Unsigned(s))), 0))
    ensures IsIntegral(Parse(s).value)
  {
    var body := Unsigned(s);
    assert forall i :: 0 <= i < |body| ==> IsDigit(body[i]);
    NoExponentMark(body);
    SignificandDigits(body);
    ParseWithoutExponent(s);
    WholeIsIntegral(Parse(s).value);
  }

  /** Digits, a point and more digits: the number of all digits, scaled by the fraction length. */
  lemma ParsePointed(s: string, intPart: string, fracPart: string)
    requires Unsigned(s) == intPart + "." + fracPart
    requires AllDigits(intPart) && AllDigits(fracPart) && |intPart| + |fracPart| > 0
    requires |fracPart| <= IntMax
    ensures Parse(s) == Some(Decimal(WithSign(s, DigitsValue(intPart + fracPart)), |fracPart|))
  {
    var body := Unsigned(s);
    forall i | 0 <= i < |body| ensures body[i] != 'e' && body[i] != 'E' {
      if i < |intPart| { assert body[i] == intPart[i]; }
      else if i > |intPart| { assert body[i] == fracPart[i - |intPart| - 1]; }
    }
    NoExponentMark(body);
    SignificandPointed(intPart, fracPart);
    ParseWithoutExponent(s);
  }

  /** The two numbers brought to their common (larger) scale. */
  function Aligned(a: Decimal, b: Decimal): (int, int) {
    var s := if a.scale < b.scale then b.scale else a.scale;
    (Shift(a.unscaled, s - a.scale), Shift(b.unscaled, s - b.scale))
  }

  /** `a.compareTo(b)`: the sign of `a - b`, whatever the two scales. */
  function Compare(a: Decimal, b: Decimal): (r: int)
    ensures r == -1 || r == 0 || r == 1
  {
    var (x, y) := Aligned(a, b);
    if x < y then -1 else if x == y then 0 else 1
  }

  /** Comparison is antisymmetric: swapping the operands flips the sign. */
  lemma CompareAntisymmetric(a: Decimal, b: Decimal)
    ensures Compare(b, a) == -Compare(a, b)
  {}

  function Abs(n: int): nat { if n < 0 then -n else n }

  /**
   * `stripTrailingZeros().scale()`: the scale once every trailing zero digit of the unscaled
   * value is dropped; zero strips to scale zero.
   */
  function StrippedScale(d: Decimal): int
    decreases Abs(d.unscaled)
  {
    if d.unscaled == 0 then 0
    else if d.unscaled % 10 == 0 then StrippedScale(Decimal(d.unscaled / 10, d.scale - 1))
    else d.scale
  }

  /** Stripping trailing zeros never raises the scale. */
  lemma {:induction false} StrippedScaleAtMost(d: Decimal)
    ensures StrippedScale(d) <= if d.unscaled == 0 then 0 else d.scale
    decreases Abs(d.unscaled)
  {
    if d.unscaled != 0 && d.unscaled % 10 == 0 {
      StrippedScaleAtMost(Decimal(d.unscaled / 10, d.scale - 1));
    }
  }

  /** `stripTrailingZeros().scale() <= 0`: the number has no non-zero fractional digit. */
  predicate IsIntegral(d: Decimal) {
    StrippedScale(d) <= 0
  }

  /**
   * Every number of scale zero or less is integral: the integer-only test passes it, unless
   * stripping its zeros overflows, and then the test throws.
   */
  lemma WholeIsIntegral(d: Decimal)
    requires d.scale <= 0
    ensures IsIntegral(d)
    ensures StripScale(d).Ok? ==> StripScale(d).value <= 0
    ensures StripScale(d) == Throws(Arithmetic) <==> StripOverflows(d)
  {
    StrippedScaleAtMost(d);
  }

  /**
   * Dropping every trailing zero would take the scale below `Integer.MIN_VALUE`: zeros are
   * dropped one at a time, each lowering the scale by one, and `BigDecimal` refuses the step
   * that leaves the `int` range.
   */
  predicate StripOverflows(d: Decimal) {
    StrippedScale(d) < IntMin
  }

  /**
   * `stripTrailingZeros().scale()`: the stripped scale, or `ArithmeticException` ("Overflow")
   * when the stripping leaves the `int` range. Zero never overflows.
   */
  function StripScale(d: Decimal): (r: Outcome<int>)
    ensures r.Ok? || r == Throws(Arithmetic)
    ensures r.Throws? ==> d.unscaled != 0
    ensures r.Ok? ==> IntMin <= r.value <= (if d.unscaled == 0 then 0 else d.scale)
  {
    StrippedScaleAtMost(d);
    if StripOverflows(d) then Throws(Arithmetic) else Ok(StrippedScale(d))
  }

  /** `10^k`. */
  function Pow10(k: nat): (p: nat)
    ensures p >= 1
  {
    if k == 0 then 1 else 10 * Pow10(k - 1)
  }

  /** A non-zero number of fewer than `n` digits loses fewer than `n` zeros to stripping. */
  lemma {:induction false} StrippedScaleAbove(d: Decimal, n: nat)
    requires d.unscaled != 0 && Abs(d.unscaled) < Pow10(n)
    ensures StrippedScale(d) > d.scale - n
    decreases n
  {
    if d.unscaled % 10 == 0 {
      assert n > 0;
      var q := d.unscaled / 10;
      assert d.unscaled == 10 * q;
      assert Abs(q) < Pow10(n - 1);
      StrippedScaleAbove(Decimal(q, d.scale - 1), n - 1);
    }
  }

  /** A run of `n` digits is below `10^n`. */
  lemma {:induction false} DigitsBelow(s: string)
    ensures DigitsValue(s) < Pow10(|s|)
  {
    if s != [] {
      DigitsBelow(s[..|s| - 1]);
    }
  }

  /**
   * An integer literal no longer than a Java string can be (`Integer.MAX_VALUE` characters)
   * strips without overflow.
   */
  lemma LiteralStripsInRange(s: string)
    requires |Unsigned(s)| > 0 && AllDigits(Unsigned(s))
    requires |s| <= IntMax
    ensures Parse(s).Some? && StripScale(Parse(s).value).Ok?
  {
    ParseDigits(s);
    var d := Parse(s).value;
    if d.unscaled != 0 {
      DigitsBelow(Unsigned(s));
      StrippedScaleAbove(d, |Unsigned(s)|);
    }
  }

  /** The digits of `Integer.MAX_VALUE`. */
  lemma MaxIntDigits()
    ensures DigitsValue("2147483647") == IntMax
  {
    var e := "2147483647";
    assert DigitsValue(e[..0]) == 0;
    assert e[..1][..0] == e[..0] && DigitsValue(e[..1]) == 2;
    assert e[..2][..1] == e[..1] && DigitsValue(e[..2]) == 21;
    assert e[..3][..2] == e[..2] && DigitsValue(e[..3]) == 214;
    assert e[..4][..3] == e[..3] && DigitsValue(e[..4]) == 2147;
    assert e[..5][..4] == e[..4] && DigitsValue(e[..5]) == 21474;
    assert e[..6][..5] == e[..5] && DigitsValue(e[..6]) == 214748;
    assert e[..7][..6] == e[..6] && DigitsValue(e[..7]) == 2147483;
    assert e[..8][..7] == e[..7] && DigitsValue(e[..8]) == 21474836;
    assert e[..9][..8] == e[..8] && DigitsValue(e[..9]) == 214748364;
    assert e[..9] == e[..|e| - 1];
  }

  /** "100E2147483647" splits at its exponent mark. */
  lemma HundredAtMaxExponentSplits()
    ensures SplitExponent(Unsigned("100E2147483647")) == ("100", Some("2147483647"))
  {
    var s := "100E2147483647";
    assert Unsigned(s) == s;
    assert IndexOfExponentMark(s[3..]) == 0;
    assert IndexOfExponentMark(s) == 3 by {
      assert IndexOfExponentMark(s) == 1 + IndexOfExponentMark(s[1..]);
      assert IndexOfExponentMark(s[1..]) == 1 + IndexOfExponentMark(s[2..]);
      assert IndexOfExponentMark(s[2..]) == 1 + IndexOfExponentMark(s[3..]);
    }
    assert s[..3] == "100" && s[3 + 1..] == "2147483647";
  }

  /** "100" is the digits of one hundred. */
  lemma HundredSignificand()
    ensures ParseSignificand("100") == Some((100, 0))
  {
    SignificandDigits("100");
    assert "100"[..2] == "10" && "10"[..1] == "1" && "1"[..0] == "";
  }

  /** "2147483647" is the exponent `Integer.MAX_VALUE`. */
  lemma MaxExponent()
    ensures ParseExponent("2147483647") == Some(IntMax)
  {
    MaxIntDigits();
    assert Unsigned("2147483647") == "2147483647";
  }

  /**
   * "100E2147483647" is a valid `BigDecimal` (scale -2147483647), but dropping its two
   * trailing zeros would need scale -2147483649: stripping it throws.
   */
  lemma HundredAtMaxExponent()
    ensures Parse("100E2147483647") == Some(Decimal(100, IntMin + 1))
    ensures StripScale(Decimal(100, IntMin + 1)) == Throws(Arithmetic)
  {
    HundredAtMaxExponentSplits();
    HundredSignificand();
    MaxExponent();
    ParseWithExponent("100E2147483647", "100", "2147483647", 100, 0, IntMax);
    HundredStripsBelowIntMin();
  }

  /** One hundred at scale `Integer.MIN_VALUE + 1` strips to scale `Integer.MIN_VALUE - 1`. */
  lemma HundredStripsBelowIntMin()
    ensures StrippedScale(Decimal(100, IntMin + 1)) == IntMin - 1
  {
    assert StrippedScale(Decimal(100, IntMin + 1)) == StrippedScale(Decimal(10, IntMin));
    assert StrippedScale(Decimal(10, IntMin)) == StrippedScale(Decimal(1, IntMin - 1));
  }

  /** `Value.parseBigDecimal`: null stays null, otherwise the trimmed text is parsed. */
  function ParseTrimmed(s: Option<string>): Option<Decimal> {
    if s.None? then None else Parse(JavaStrings.Trim(s.value))
  }

  /** Appending a trailing zero to the fraction of a decimal does not change its value. */
  lemma TrailingZeroAppended(m: nat, f: nat)
    ensures Compare(Decimal(m, f), Decimal(m * 10, f + 1)) == 0
  {
    assert Shift(m, 1) == m * 10;
  }

  /** A pointed decimal text has no outer space and no sign. */
  lemma PointedText(v: string, intPart: string, fracPart: string)
    requires v == intPart + "." + fracPart
    requires AllDigits(intPart) && AllDigits(fracPart) && |fracPart| > 0
    ensures JavaStrings.Trim(v) == v && Unsigned(v) == v
  {
    assert v[|v| - 1] == fracPart[|fracPart| - 1];
    assert v[0] == if |intPart| > 0 then intPart[0] else '.';
    JavaStrings.TrimNoop(v);
  }

  /** A zero digit appended multiplies the value of a digit run by ten. */
  lemma DigitsAppendZero(a: string, b: string)
    requires AllDigits(a) && AllDigits(b)
    ensures AllDigits(a + (b + "0"))
    ensures DigitsValue(a + (b + "0")) == DigitsValue(a + b) * 10
  {
    var t := a + (b + "0");
    assert t[..|t| - 1] == a + b;
    assert t[|t| - 1] == '0';
  }

  /** The text of a pointed decimal with one more trailing zero. */
  lemma ParseAppendZero(v: string, intPart: string, fracPart: string)
    requires v == intPart + "." + fracPart
    requires AllDigits(intPart) && AllDigits(fracPart) && |fracPart| > 0 && |fracPart| < IntMax
    ensures JavaStrings.Trim(v + "0") == v + "0"
    ensures Parse(v + "0") == Some(Decimal(DigitsValue(intPart + fracPart) * 10, |fracPart| + 1))
  {
    var f0 := fracPart + "0";
    assert v + "0" == intPart + "." + f0;
    DigitsAppendZero(intPart, fracPart);
    PointedText(v + "0", intPart, f0);
    ParsePointed(v + "0", intPart, f0);
  }

  /** A pointed decimal and the same text with one more trailing zero are the same number. */
  lemma TrailingZeroSameNumber(v: string, intPart: string, fracPart: string)
    requires v == intPart + "." + fracPart
    requires AllDigits(intPart) && AllDigits(fracPart) && |fracPart| > 0 && |fracPart| < IntMax
    ensures JavaStrings.Trim(v) == v && JavaStrings.Trim(v + "0") == v + "0"
    ensures Parse(v).Some? && Parse(v + "0").Some?
    ensures Compare(Parse(v).value, Parse(v + "0").value) == 0
  {
    PointedText(v, intPart, fracPart);
    ParsePointed(v, intPart, fracPart);
    ParseAppendZero(v, intPart, fracPart);
    var n := DigitsValue(intPart + fracPart);
    TrailingZeroAppended(n, |fracPart|);
  }
}
