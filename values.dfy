/**
 * `Value`: the two kinds of expected value a facet holds (a simple text or an XSD
 * restriction), and the two operations every facet uses on them, `matches` and `extract`.
 */
module Values {
  import opened Wrappers
  import opened JavaStrings
  import opened Decimals
  import SimpleValues
  import RestrictionValues

  datatype Value = Simple(text: Option<string>) | Restricted(r: RestrictionValues.Restriction)

  /**
   * `matches`: a simple value throws only when stripping a number overflows (in integer mode,
   * see `SimpleValues.OnlyIntegerModeThrows`); a restriction may also throw (a null base);
   * neither diverges.
   */
  function Matches(v: Value, candidate: Option<string>, rx: RestrictionValues.Regex): (r: Outcome<bool>)
    ensures candidate.None? ==> r == Ok(false)
    ensures !r.Diverges?
    ensures v.Simple? ==> r.Ok? || r == Throws(Arithmetic)
  {
    match v
    case Simple(t) => SimpleValues.Matches(t, candidate)
    case Restricted(x) => RestrictionValues.Matches(x, candidate, rx)
  }

  /** A test a search applies to a name or a text. */
  type TextTest = string -> Outcome<bool>

  /** `value.matches(text)`, as such a test. */
  function ValueTest(value: Value, rx: RestrictionValues.Regex): TextTest {
    t => Matches(value, Some(t), rx)
  }

  /** `extract`: the text a facet reports for the value; a restriction's summary is never empty. */
  function Extract(v: Value): (s: string)
    ensures v.Simple? ==> NoOuterSpace(s)
    ensures v.Restricted? ==> |s| > 0
  {
    match v
    case Simple(t) => SimpleValues.Extract(t)
    case Restricted(x) => RestrictionValues.Extract(x)
  }

  /** The record's own `toString`, `SimpleValue[value=...]` or `RestrictionValue[base=..., ...]`. */
  function RecordText(v: Value): string {
    match v
    case Simple(t) => "SimpleValue[value=" + OrNull(t) + "]"
    case Restricted(x) =>
      "RestrictionValue[base=" + (if x.base.None? then "null" else RestrictionValues.BaseName(x.base.value))
      + ", enums=" + (if x.enums.None? then "null" else "[" + Join(", ", RestrictionValues.EntryTexts(x.enums.value)) + "]")
      + ", pattern=" + OrNull(x.pattern)
      + ", minInclusive=" + OrNull(x.minInclusive)
      + ", maxInclusive=" + OrNull(x.maxInclusive)
      + ", minExclusive=" + OrNull(x.minExclusive)
      + ", maxExclusive=" + OrNull(x.maxExclusive) + "]"
  }

  /** Two simple values render the same record text only when their texts render the same. */
  lemma SimpleRecordTextInjective(a: Option<string>, b: Option<string>)
    requires RecordText(Simple(a)) == RecordText(Simple(b))
    ensures OrNull(a) == OrNull(b)
  {
    var p := "SimpleValue[value=";
    var x := RecordText(Simple(a));
    var y := RecordText(Simple(b));
    assert OrNull(a) == x[|p|..|x| - 1];
    assert OrNull(b) == y[|p|..|y| - 1];
  }

  /** `parseBigDecimal`: null gives null, and the text is trimmed before it is read. */
  lemma ParseBigDecimalTrims(s: string)
    ensures ParseTrimmed(None) == None
    ensures ParseTrimmed(Some(s)) == ParseTrimmed(Some(Trim(s)))
  {
    TrimIdempotent(s);
  }

  /** " 1.5 " reads as 1.5: fifteen tenths. */
  lemma PaddedDecimalParses()
    ensures ParseTrimmed(Some(" 1.5 ")) == Some(Decimal(15, 1))
  {
    var v := "1.5";
    TrimPadded();
    assert v == "1" + "." + "5";
    PointedText(v, "1", "5");
    ParsePointed(v, "1", "5");
    FifteenDigits();
  }

  lemma TrimPadded()
    ensures Trim(" 1.5 ") == "1.5"
  {
    assert LeadingTrimmed(" 1.5 ") == 1;
    assert " 1.5 "[1..] == "1.5 ";
    assert TrailingTrimmed("1.5 ") == 1;
  }

  lemma FifteenDigits()
    ensures DigitsValue("1" + "5") == 15
  {
    assert "1" + "5" == "15";
    assert "15"[..1] == "1";
  }

  /** Text that is not a decimal literal reads as null rather than failing. */
  lemma WordDoesNotParse()
    ensures ParseTrimmed(Some("abc")) == None
  {
    var v := "abc";
    TrimNoop(v);
    assert Unsigned(v) == v;
    assert IndexOfExponentMark(v) == 3;
    assert v[..3] == v;
    assert IndexOf(v, '.') == 3;
    assert !AllDigits(v) by { assert !IsDigit(v[0]); }
  }
}
