/**
 * `SimpleValue`: a fixed expected text whose comparison mode (boolean, integer, decimal or
 * exact string) is inferred from the text itself.
 */
module SimpleValues {
  import opened Wrappers
  import opened JavaStrings
  import opened Decimals

  datatype Kind = BOOLEAN | INTEGER | DOUBLE | STRING

  /** The text of the integer pattern `[-+]?\d+` (ASCII digits). */
  predicate IsIntegerLiteral(s: string) {
    var body := Unsigned(s);
    |body| > 0 && AllDigits(body)
  }

  /** The digits-and-point part of the decimal pattern, `\d*\.?\d+`. */
  predicate IsDecimalSignificand(m: string) {
    var d := IndexOf(m, '.');
    if d == |m| then |m| > 0 && AllDigits(m)
    else AllDigits(m[..d]) && |m[d + 1..]| > 0 && AllDigits(m[d + 1..])
  }

  /** The text of the decimal pattern `[-+]?\d*\.?\d+(?:[eE][-+]?\d+)?` (ASCII digits). */
  predicate IsDoubleLiteral(s: string) {
    var (m, e) := SplitExponent(Unsigned(s));
    IsDecimalSignificand(m) && (e.None? || (|Unsigned(e.value)| > 0 && AllDigits(Unsigned(e.value))))
  }

  /** `SimpleValue.type()`: booleans first, then integers, then decimals, else plain strings. */
  function KindOf(value: Option<string>): (k: Kind)
    ensures value.None? ==> k == STRING
  {
    if value.None? then STRING
    else
      var t := Trim(value.value);
      if t == "true" || t == "false" then BOOLEAN
      else if IsIntegerLiteral(t) then INTEGER
      else if IsDoubleLiteral(t) then DOUBLE
      else STRING
  }

  /**
   * The kind of a text, in both directions: BOOLEAN iff it trims to "true" or "false", else
   * INTEGER iff it is an integer literal, else DOUBLE iff it is a decimal literal, else STRING.
   */
  lemma KindOfCases(s: string)
    ensures var k := KindOf(Some(s)); var t := Trim(s);
      var isBool := t == "true" || t == "false";
      && (k == BOOLEAN <==> isBool)
      && (k == INTEGER <==> !isBool && IsIntegerLiteral(t))
      && (k == DOUBLE <==> !isBool && !IsIntegerLiteral(t) && IsDoubleLiteral(t))
      && (k == STRING <==> !isBool && !IsIntegerLiteral(t) && !IsDoubleLiteral(t))
  {}

  /** `equalsBoolean`: both texts are exactly `true`, or both exactly `false`. */
  predicate EqualsBoolean(a: Option<string>, b: string) {
    (a == Some("true") && b == "true") || (a == Some("false") && b == "false")
  }

  /**
   * `equalsAsBigDecimal`: both texts parse (after trimming) and are numerically equal, and in
   * integer mode neither has a non-zero fractional part. The integer test strips the stored
   * number first and the candidate second; either strip may throw `ArithmeticException`.
   */
  function EqualsAsDecimal(a: Option<string>, b: string, integerOnly: bool): (r: Outcome<bool>)
    ensures r.Ok? || (integerOnly && r == Throws(Arithmetic))
    ensures r == Ok(true) ==>
      ParseTrimmed(a).Some? && ParseTrimmed(Some(b)).Some?
      && Compare(ParseTrimmed(a).value, ParseTrimmed(Some(b)).value) == 0
  {
    var x := ParseTrimmed(a);
    var y := ParseTrimmed(Some(b));
    if x.None? || y.None? then Ok(false)
    else if !integerOnly then Ok(Compare(x.value, y.value) == 0)
    else
      var sx :- StripScale(x.value);
      if sx > 0 then Ok(false)
      else
        var sy :- StripScale(y.value);
        if sy > 0 then Ok(false)
        else Ok(Compare(x.value, y.value) == 0)
  }

  /**
   * `SimpleValue.matches`: the candidate is trimmed and compared in the stored text's mode;
   * only stripping a number can throw.
   */
  function Matches(value: Option<string>, candidate: Option<string>): (r: Outcome<bool>)
    ensures candidate.None? ==> r == Ok(false)
    ensures r.Ok? || r == Throws(Arithmetic)
  {
    if candidate.None? then Ok(false)
    else
      var c := Trim(candidate.value);
      match KindOf(value)
      case BOOLEAN => Ok(EqualsBoolean(value, c))
      case INTEGER => EqualsAsDecimal(value, c, true)
      case DOUBLE => EqualsAsDecimal(value, c, false)
      case STRING => Ok(Some(c) == value)
  }

  /** Only the integer mode can throw: booleans, decimals and strings always give a verdict. */
  lemma OnlyIntegerModeThrows(value: Option<string>, candidate: Option<string>)
    ensures Matches(value, candidate).Throws? ==> KindOf(value) == INTEGER
  {
  }

  /** `SimpleValue.extract`: the trimmed text, or the empty string for a null text. */
  function Extract(value: Option<string>): (r: string)
    ensures NoOuterSpace(r)
    ensures value.None? ==> r == ""
  {
    if value.None? then "" else TrimResult(value.value); Trim(value.value)
  }

  /** An integer literal always parses, to a whole number of scale zero. */
  lemma IntegerLiteralParses(s: string)
    requires IsIntegerLiteral(s)
    ensures Parse(s).Some? && Parse(s).value.scale == 0 && IsIntegral(Parse(s).value)
  {
    ParseDigits(s);
  }

  /** Every number compares equal to itself. */
  lemma CompareReflexive(d: Decimal)
    ensures Compare(d, d) == 0
  {}

  /**
   * A stored text without outer spaces matches its own extract, except a decimal literal whose
   * exponent or scale lies outside the Java `int` range (that text matches nothing at all) and
   * an integer literal whose stripping overflows (which takes more digits than a Java string
   * holds; see `LiteralStripsInRange`).
   */
  lemma MatchesOwnExtract(v: string)
    requires NoOuterSpace(v)
    ensures Matches(Some(v), Some(Extract(Some(v)))) == Ok(true) <==>
      && (KindOf(Some(v)) != DOUBLE || Parse(v).Some?)
      && !(KindOf(Some(v)) == INTEGER && Parse(v).Some? && StripOverflows(Parse(v).value))
  {
    TrimNoop(v);
    var k := KindOf(Some(v));
    if k == INTEGER {
      IntegerLiteralParses(v);
      CompareReflexive(Parse(v).value);
      assert ParseTrimmed(Some(v)) == Parse(v);
      assert Matches(Some(v), Some(Extract(Some(v)))) == EqualsAsDecimal(Some(v), v, true);
    } else if k == DOUBLE && Parse(v).Some? {
      CompareReflexive(Parse(v).value);
      assert EqualsAsDecimal(Some(v), v, false) == Ok(true);
    }
  }

  /**
   * A stored boolean with surrounding spaces is still of boolean kind, but the comparison
   * uses the untrimmed text, so it matches no candidate at all.
   */
  lemma PaddedBooleanMatchesNothing(v: string, c: Option<string>)
    requires Trim(v) == "true" || Trim(v) == "false"
    requires v != Trim(v)
    ensures KindOf(Some(v)) == BOOLEAN
    ensures Matches(Some(v), c) == Ok(false)
  {}

  /**
   * With an integer-literal text, a candidate matches exactly when it is a whole number equal
   * to the stored one, however it is spelled ("1.0", "+1" and " 1" all equal "1"). A candidate
   * that parses throws `ArithmeticException` when either number's stripping overflows.
   */
  lemma IntegerKindMatches(v: string, c: string)
    requires KindOf(Some(v)) == INTEGER
    ensures Parse(Trim(v)).Some?
    ensures var x, d := Parse(Trim(v)).value, Parse(Trim(c));
      Matches(Some(v), Some(c)).Throws? <==> d.Some? && (StripOverflows(x) || StripOverflows(d.value))
    ensures var x, d := Parse(Trim(v)).value, Parse(Trim(c));
      Matches(Some(v), Some(c)) == Ok(true) <==>
        d.Some? && !StripOverflows(x) && !StripOverflows(d.value) && IsIntegral(d.value) && Compare(x, d.value) == 0
  {
    IntegerLiteralParses(Trim(v));
    TrimIdempotent(c);
    assert Matches(Some(v), Some(c)) == EqualsAsDecimal(Some(v), Trim(c), true);
    assert ParseTrimmed(Some(Trim(c))) == Parse(Trim(c));
    assert ParseTrimmed(Some(v)) == Parse(Trim(v));
  }

  /**
   * The stored integer "5" against the candidate "100E2147483647": the candidate is a valid
   * number, but stripping its trailing zeros overflows, so `matches` throws.
   */
  lemma OverflowingCandidateThrows()
    ensures Matches(Some("5"), Some("100E2147483647")) == Throws(Arithmetic)
  {
    var c := "100E2147483647";
    FiveIsInteger();
    HundredAtMaxExponent();
    TrimNoop(c);
    IntegerKindMatches("5", c);
  }

  /** "5" is an integer-kind text, the number five. */
  lemma FiveIsInteger()
    ensures KindOf(Some("5")) == INTEGER
    ensures Trim("5") == "5" && Parse("5") == Some(Decimal(5, 0))
  {
    var v := "5";
    TrimNoop(v);
    assert v != "true" && v != "false";
    assert Unsigned(v) == v && IsDigit(v[0]);
    ParseDigits(v);
    assert DigitsValue(v) == 5 by { assert v[..0] == ""; }
  }

  /**
   * With a decimal-literal text, a candidate matches exactly when both texts parse and are
   * numerically equal; fractional candidates are welcome.
   */
  lemma DecimalKindMatches(v: Option<string>, c: string)
    requires KindOf(v) == DOUBLE
    ensures Matches(v, Some(c)) ==
      Ok(ParseTrimmed(v).Some? && Parse(Trim(c)).Some? && Compare(ParseTrimmed(v).value, Parse(Trim(c)).value) == 0)
  {
    TrimIdempotent(c);
    assert Matches(v, Some(c)) == EqualsAsDecimal(v, Trim(c), false);
  }

  /**
   * With a decimal-literal text, the spelling of the fraction does not matter: the text with an
   * extra trailing zero ("1.50" for "1.5") matches.
   */
  lemma DecimalKindIgnoresScale(v: string, intPart: string, fracPart: string)
    requires v == intPart + "." + fracPart
    requires AllDigits(intPart) && AllDigits(fracPart) && |fracPart| > 0 && |fracPart| < IntMax
    requires KindOf(Some(v)) == DOUBLE
    ensures Matches(Some(v), Some(v + "0")) == Ok(true)
  {
    DecimalKindMatches(Some(v), v + "0");
    TrailingZeroSameNumber(v, intPart, fracPart);
  }

  /** With a plain-string text, a candidate matches exactly when its trimmed form is the text. */
  lemma StringKindMatches(v: Option<string>, c: string)
    requires KindOf(v) == STRING
    ensures Matches(v, Some(c)) == Ok(v == Some(Trim(c)))
  {}

  /** "Wall" is neither a boolean nor a number. */
  lemma WallIsPlainString()
    ensures KindOf(Some("Wall")) == STRING
  {
    var v := "Wall";
    TrimNoop(v);
    assert v != "true" && v != "false" by { assert v[0] != "true"[0]; }
    assert Unsigned(v) == v;
    assert !IsIntegerLiteral(v) by { assert !IsDigit(v[0]); }
    assert SplitExponent(v).0 == v by {
      assert IndexOfExponentMark(v) == 4;
      assert v[..4] == v;
    }
    assert !IsDecimalSignificand(v) by {
      assert IndexOf(v, '.') == 4;
      assert !IsDigit(v[0]);
    }
  }

  /** Plain strings compare exactly, including letter case; only the candidate is trimmed. */
  lemma StringKindIsCaseSensitive()
    ensures Matches(Some("Wall"), Some(" Wall ")) == Ok(true)
    ensures Matches(Some("Wall"), Some("wall")) == Ok(false)
  {
    WallIsPlainString();
    StringKindMatches(Some("Wall"), " Wall ");
    StringKindMatches(Some("Wall"), "wall");
    assert Trim(" Wall ") == "Wall" by {
      assert LeadingTrimmed(" Wall ") == 1;
      assert " Wall "[1..] == "Wall ";
      assert TrailingTrimmed("Wall ") == 1;
    }
    TrimNoop("wall");
    assert "wall" != "Wall" by { assert "wall"[0] != "Wall"[0]; }
  }
}
