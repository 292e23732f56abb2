/**
 * `RestrictionValue`: an XSD-style restriction (enumeration, pattern, numeric bounds) over a
 * base type.
 */
module RestrictionValues {
  import opened Wrappers
  import opened JavaStrings
  import opened Decimals

  datatype XsdBase = STRING | INTEGER | DOUBLE | BOOLEAN

  /** The regular-expression engine: does the pattern match the whole text? Not modelled. */
  type Regex = (string, string) -> bool

  /** Every component may be null; the enumeration's entries may be null too. */
  datatype Restriction = Restriction(
    base: Option<XsdBase>,
    enums: Option<seq<Option<string>>>,
    pattern: Option<string>,
    minInclusive: Option<string>,
    maxInclusive: Option<string>,
    minExclusive: Option<string>,
    maxExclusive: Option<string>)

  /** `xsdBaseFromString`: the base named by a type reference, whatever its namespace prefix. */
  function XsdBaseFromString(s: string): (r: Option<XsdBase>)
    ensures r == Some(STRING) <==> EndsWith(s, ":string")
    ensures r == Some(INTEGER) <==> EndsWith(s, ":integer") || EndsWith(s, ":int")
    ensures r == Some(DOUBLE) <==> EndsWith(s, ":double")
    ensures r == Some(BOOLEAN) <==> EndsWith(s, ":boolean")
  {
    SuffixesExclusive(s);
    if EndsWith(s, ":string") || s == "xs:string" then Some(STRING)
    else if EndsWith(s, ":integer") || EndsWith(s, ":int") || s == "xs:integer" || s == "xs:int" then Some(INTEGER)
    else if EndsWith(s, ":double") || s == "xs:double" then Some(DOUBLE)
    else if EndsWith(s, ":boolean") || s == "xs:boolean" then Some(BOOLEAN)
    else None
  }

  /** The type suffixes end in different letters, so at most one of them applies. */
  lemma SuffixesExclusive(s: string)
    ensures EndsWith(s, ":string") ==> !EndsWith(s, ":integer") && !EndsWith(s, ":int") && !EndsWith(s, ":double") && !EndsWith(s, ":boolean")
    ensures EndsWith(s, ":integer") || EndsWith(s, ":int") ==> !EndsWith(s, ":double") && !EndsWith(s, ":boolean")
    ensures EndsWith(s, ":double") ==> !EndsWith(s, ":boolean")
  {
    if |s| > 0 {
      var last := s[|s| - 1];
      assert EndsWith(s, ":string") ==> last == 'g';
      assert EndsWith(s, ":integer") ==> last == 'r';
      assert EndsWith(s, ":int") ==> last == 't';
      assert EndsWith(s, ":double") ==> last == 'e';
      assert EndsWith(s, ":boolean") ==> last == 'n';
    }
  }

  /** The type-name forms with the `xs:` prefix name the expected bases. */
  lemma XsdPrefixedNames()
    ensures XsdBaseFromString("xs:string") == Some(STRING)
    ensures XsdBaseFromString("xs:int") == Some(INTEGER)
    ensures XsdBaseFromString("xs:integer") == Some(INTEGER)
    ensures XsdBaseFromString("xs:double") == Some(DOUBLE)
    ensures XsdBaseFromString("xs:boolean") == Some(BOOLEAN)
    ensures XsdBaseFromString("xs:decimal") == None
  {
    assert EndsWith("xs:string", ":string");
    assert EndsWith("xs:int", ":int");
    assert EndsWith("xs:integer", ":integer");
    assert EndsWith("xs:double", ":double");
    assert EndsWith("xs:boolean", ":boolean");
    assert "xs:decimal"[|"xs:decimal"| - 1] == 'l';
  }

  /** A bound is satisfied: absent, or present, parseable and in the stated relation to `v`. */
  predicate BoundHolds(bound: Option<string>, v: Decimal, accepted: set<int>) {
    bound.None? || (Parse(bound.value).Some? && Compare(v, Parse(bound.value).value) in accepted)
  }

  /**
   * `checkNumeric`: the candidate parses and lies within every bound that is set. A bound
   * that does not parse rejects every candidate, since the exception is caught as a mismatch.
   */
  predicate CheckNumeric(r: Restriction, c: string) {
    var v := Parse(c);
    v.Some?
    && BoundHolds(r.minInclusive, v.value, {0, 1})
    && BoundHolds(r.maxInclusive, v.value, {-1, 0})
    && BoundHolds(r.minExclusive, v.value, {1})
    && BoundHolds(r.maxExclusive, v.value, {-1})
  }

  /** Some enumeration entry parses (after trimming) to a number equal to `v`. */
  predicate SomeEntryEquals(enums: seq<Option<string>>, v: Decimal) {
    exists i :: 0 <= i < |enums| && EntryEquals(enums[i], v)
  }

  predicate EntryEquals(e: Option<string>, v: Decimal) {
    var d := ParseTrimmed(e);
    d.Some? && Compare(v, d.value) == 0
  }

  /** The entry parses, but stripping its trailing zeros throws. */
  predicate EntryOverflows(e: Option<string>) {
    var d := ParseTrimmed(e);
    d.Some? && StripOverflows(d.value)
  }

  /**
   * The integer entry test: the entry parses, strips without overflow to a scale that is
   * exactly zero (`exact`, as written) or at most zero (as corrected), and equals `v`.
   */
  predicate IntegerEntryHit(e: Option<string>, v: Decimal, exact: bool) {
    var d := ParseTrimmed(e);
    && d.Some? && !StripOverflows(d.value)
    && (if exact then StrippedScale(d.value) == 0 else StrippedScale(d.value) <= 0)
    && Compare(v, d.value) == 0
  }

  /**
   * The loop over the entries of an integer enumeration: entries that do not parse are
   * skipped, the others are stripped (which may throw) and tested, and the first hit returns
   * true.
   */
  function IntegerEntriesScan(enums: seq<Option<string>>, v: Decimal, exact: bool): (r: Outcome<bool>)
    ensures r.Ok? || r == Throws(Arithmetic)
  {
    if enums == [] then Ok(false)
    else
      var d := ParseTrimmed(enums[0]);
      if d.None? then IntegerEntriesScan(enums[1..], v, exact)
      else
        var s :- StripScale(d.value);
        if (if exact then s == 0 else s <= 0) && Compare(v, d.value) == 0 then Ok(true)
        else IntegerEntriesScan(enums[1..], v, exact)
  }

  /**
   * The scan returns true exactly when some entry hits before any entry overflows, and throws
   * exactly when some entry overflows before any entry hits.
   */
  lemma {:induction false} IntegerEntriesScanSpec(enums: seq<Option<string>>, v: Decimal, exact: bool)
    ensures IntegerEntriesScan(enums, v, exact) == Ok(true) <==>
      exists i :: 0 <= i < |enums| && IntegerEntryHit(enums[i], v, exact)
        && forall j :: 0 <= j < i ==> !EntryOverflows(enums[j])
    ensures IntegerEntriesScan(enums, v, exact).Throws? <==>
      exists i :: 0 <= i < |enums| && EntryOverflows(enums[i])
        && forall j :: 0 <= j < i ==> !IntegerEntryHit(enums[j], v, exact)
  {
    if enums != [] {
      var rest := enums[1..];
      IntegerEntriesScanSpec(rest, v, exact);
      ScanFirst(enums, v, exact);
      if !EntryOverflows(enums[0]) && !IntegerEntryHit(enums[0], v, exact) {
        ShiftedFirst(enums, v, exact);
      }
    }
  }

  /** The first entry decides the scan when it overflows or hits; otherwise the scan moves on. */
  lemma ScanFirst(enums: seq<Option<string>>, v: Decimal, exact: bool)
    requires enums != []
    ensures EntryOverflows(enums[0]) ==> IntegerEntriesScan(enums, v, exact) == Throws(Arithmetic)
    ensures IntegerEntryHit(enums[0], v, exact) ==> IntegerEntriesScan(enums, v, exact) == Ok(true)
    ensures !EntryOverflows(enums[0]) && !IntegerEntryHit(enums[0], v, exact) ==>
      IntegerEntriesScan(enums, v, exact) == IntegerEntriesScan(enums[1..], v, exact)
  {
    var d := ParseTrimmed(enums[0]);
    if d.Some? {
      assert StripScale(d.value) == (if StripOverflows(d.value) then Throws(Arithmetic) else Ok(StrippedScale(d.value)));
    }
  }

  /**
   * When the first entry neither hits nor overflows, the two "first decisive entry" conditions
   * on the enumeration are those on its tail.
   */
  lemma ShiftedFirst(enums: seq<Option<string>>, v: Decimal, exact: bool)
    requires enums != []
    requires !EntryOverflows(enums[0]) && !IntegerEntryHit(enums[0], v, exact)
    ensures (exists i :: 0 <= i < |enums| && IntegerEntryHit(enums[i], v, exact)
               && forall j :: 0 <= j < i ==> !EntryOverflows(enums[j]))
        <==> (exists i :: 0 <= i < |enums[1..]| && IntegerEntryHit(enums[1..][i], v, exact)
               && forall j :: 0 <= j < i ==> !EntryOverflows(enums[1..][j]))
    ensures (exists i :: 0 <= i < |enums| && EntryOverflows(enums[i])
               && forall j :: 0 <= j < i ==> !IntegerEntryHit(enums[j], v, exact))
        <==> (exists i :: 0 <= i < |enums[1..]| && EntryOverflows(enums[1..][i])
               && forall j :: 0 <= j < i ==> !IntegerEntryHit(enums[1..][j], v, exact))
  {
    var rest := enums[1..];
    forall i | 0 < i < |enums| ensures enums[i] == rest[i - 1] {}
  }

  /**
   * `enumMatches` for the integer base: a candidate that does not parse is rejected, it is
   * stripped (which may throw) and rejected when fractional, and the entries are scanned.
   */
  function IntegerEnumMatches(enums: seq<Option<string>>, c: string, exact: bool): (r: Outcome<bool>)
    ensures r.Ok? || r == Throws(Arithmetic)
  {
    var v := ParseTrimmed(Some(c));
    if v.None? then Ok(false)
    else
      var s :- StripScale(v.value);
      if s > 0 then Ok(false) else IntegerEntriesScan(enums, v.value, exact)
  }

  /**
   * Without any overflow, the integer test accepts exactly a whole-number candidate equal to
   * some entry that passes the entry test.
   */
  lemma IntegerEnumWithoutOverflow(enums: seq<Option<string>>, c: string, exact: bool)
    requires ParseTrimmed(Some(c)).Some? ==> !StripOverflows(ParseTrimmed(Some(c)).value)
    requires forall i :: 0 <= i < |enums| ==> !EntryOverflows(enums[i])
    ensures var v := ParseTrimmed(Some(c));
      IntegerEnumMatches(enums, c, exact) ==
        Ok(v.Some? && IsIntegral(v.value) && exists i :: 0 <= i < |enums| && IntegerEntryHit(enums[i], v.value, exact))
  {
    var v := ParseTrimmed(Some(c));
    if v.Some? {
      assert StripScale(v.value) == Ok(StrippedScale(v.value));
      if IsIntegral(v.value) {
        var hit := exists i :: 0 <= i < |enums| && IntegerEntryHit(enums[i], v.value, exact);
        ScanWithoutOverflow(enums, v.value, exact);
        assert IntegerEnumMatches(enums, c, exact) == IntegerEntriesScan(enums, v.value, exact);
      }
    }
  }

  /** Without an overflowing entry, the scan says whether some entry hits. */
  lemma ScanWithoutOverflow(enums: seq<Option<string>>, v: Decimal, exact: bool)
    requires forall i :: 0 <= i < |enums| ==> !EntryOverflows(enums[i])
    ensures IntegerEntriesScan(enums, v, exact) ==
      Ok(exists i :: 0 <= i < |enums| && IntegerEntryHit(enums[i], v, exact))
  {
    IntegerEntriesScanSpec(enums, v, exact);
  }

  /**
   * `enumMatches` as written: for the integer base an entry must strip to scale exactly zero,
   * which rejects every whole entry with trailing zeros ("10" strips to 1E+1, scale -1).
   */
  function EnumMatchesAsWritten(base: Option<XsdBase>, enums: seq<Option<string>>, c: string): (r: Outcome<bool>)
    ensures base.None? <==> r == Throws(NullPointer)
    ensures r.Ok? || r == Throws(NullPointer) || (base == Some(INTEGER) && r == Throws(Arithmetic))
  {
    if base == Some(INTEGER) then IntegerEnumMatches(enums, c, true)
    else EnumMatches(base, enums, c)
  }

  /**
   * `enumMatches` with the entry test it evidently means: membership in the enumeration, by
   * text for strings and booleans and by numeric value for numbers (whole numbers only for the
   * integer base). A null base throws, and so does an integer strip that overflows.
   */
  function EnumMatches(base: Option<XsdBase>, enums: seq<Option<string>>, c: string): (r: Outcome<bool>)
    ensures base.None? <==> r == Throws(NullPointer)
    ensures r.Ok? || r == Throws(NullPointer) || (base == Some(INTEGER) && r == Throws(Arithmetic))
    ensures r.Ok? && r.value && (base == Some(STRING) || base == Some(BOOLEAN)) ==> Some(c) in enums
    ensures base == Some(DOUBLE) ==> r == Ok(ParseTrimmed(Some(c)).Some? && SomeEntryEquals(enums, ParseTrimmed(Some(c)).value))
  {
    if base.None? then Throws(NullPointer)
    else match base.value
      case STRING => Ok(Some(c) in enums)
      case BOOLEAN => Ok(exists i :: 0 <= i < |enums| && enums[i].Some? && enums[i].value == c)
      case INTEGER => IntegerEnumMatches(enums, c, false)
      case DOUBLE =>
        var v := ParseTrimmed(Some(c));
        Ok(v.Some? && SomeEntryEquals(enums, v.value))
  }

  /** "10" reads as the whole number ten, written with scale zero, which strips to scale -1. */
  lemma TenParses()
    ensures Parse("10") == Some(Decimal(10, 0)) && Trim("10") == "10"
    ensures StrippedScale(Decimal(10, 0)) == -1
  {
    var t := "10";
    assert Unsigned(t) == t;
    ParseDigits(t);
    assert DigitsValue(t) == 10 by { assert t[..1] == "1"; }
    TrimNoop(t);
    assert StrippedScale(Decimal(10, 0)) == StrippedScale(Decimal(1, -1));
  }

  /** The integer enumeration `["10"]` as written does not accept "10"; the corrected one does. */
  lemma WholeEntryWithTrailingZeroRejected()
    ensures EnumMatchesAsWritten(Some(INTEGER), [Some("10")], "10") == Ok(false)
    ensures EnumMatches(Some(INTEGER), [Some("10")], "10") == Ok(true)
  {
    TenParses();
    var d := Decimal(10, 0);
    assert StripScale(d) == Ok(-1);
    assert ParseTrimmed([Some("10")][0]) == Some(d);
    assert [Some("10")][1..] == [];
    assert IntegerEntriesScan([Some("10")], d, true) == Ok(false);
    assert IntegerEntriesScan([Some("10")], d, false) == Ok(true);
  }

  /** An entry that hits keeps the scan from returning false: it returns true or throws first. */
  lemma {:induction false} HitDecides(enums: seq<Option<string>>, v: Decimal, exact: bool, i: nat)
    requires i < |enums| && IntegerEntryHit(enums[i], v, exact)
    ensures IntegerEntriesScan(enums, v, exact) != Ok(false)
  {
    ScanFirst(enums, v, exact);
    if i > 0 && !EntryOverflows(enums[0]) && !IntegerEntryHit(enums[0], v, exact) {
      assert enums[1..][i - 1] == enums[i];
      HitDecides(enums[1..], v, exact, i - 1);
    }
  }

  /**
   * With the corrected test, a whole-number entry is never rejected by its own text: the loop
   * accepts it, or throws first on an entry that overflows. It accepts when no earlier entry
   * overflows and the text fits in a Java string.
   */
  lemma IntegerEntryMatchesItself(enums: seq<Option<string>>, i: nat)
    requires i < |enums| && enums[i].Some?
    requires NoOuterSpace(enums[i].value)
    requires |Unsigned(enums[i].value)| > 0 && AllDigits(Unsigned(enums[i].value))
    ensures EnumMatches(Some(INTEGER), enums, enums[i].value) == Ok(true)
         || EnumMatches(Some(INTEGER), enums, enums[i].value) == Throws(Arithmetic)
    ensures |enums[i].value| <= IntMax && (forall j :: 0 <= j < i ==> !EntryOverflows(enums[j])) ==>
      EnumMatches(Some(INTEGER), enums, enums[i].value) == Ok(true)
  {
    var c := enums[i].value;
    TrimNoop(c);
    ParseDigits(c);
    var v := Parse(c).value;
    assert ParseTrimmed(Some(c)) == Some(v);
    IntegerEnumOfWhole(enums, c, false);
    assert EnumMatches(Some(INTEGER), enums, c) == IntegerEnumMatches(enums, c, false);
    if |c| <= IntMax {
      LiteralStripsInRange(c);
      assert !StripOverflows(v);
    }
    if !StripOverflows(v) {
      assert Compare(v, v) == 0;
      assert IntegerEntryHit(enums[i], v, false);
      HitDecides(enums, v, false, i);
      var scan := IntegerEntriesScan(enums, v, false);
      assert scan.Ok? ==> scan.value;
      assert EnumMatches(Some(INTEGER), enums, c) == scan;
      if forall j :: 0 <= j < i ==> !EntryOverflows(enums[j]) {
        FirstHitAccepts(enums, v, false, i);
      }
    }
  }

  /** A hit with no overflowing entry before it makes the scan accept. */
  lemma FirstHitAccepts(enums: seq<Option<string>>, v: Decimal, exact: bool, i: nat)
    requires i < |enums| && IntegerEntryHit(enums[i], v, exact)
    requires forall j :: 0 <= j < i ==> !EntryOverflows(enums[j])
    ensures IntegerEntriesScan(enums, v, exact) == Ok(true)
  {
    IntegerEntriesScanSpec(enums, v, exact);
  }

  /** A whole-number candidate throws if its strip overflows and is otherwise judged by the scan. */
  lemma IntegerEnumOfWhole(enums: seq<Option<string>>, c: string, exact: bool)
    requires ParseTrimmed(Some(c)).Some? && IsIntegral(ParseTrimmed(Some(c)).value)
    ensures var v := ParseTrimmed(Some(c)).value;
      IntegerEnumMatches(enums, c, exact) ==
        if StripOverflows(v) then Throws(Arithmetic) else IntegerEntriesScan(enums, v, exact)
  {
  }

  /**
   * `RestrictionValue.matches`: the trimmed candidate is judged by the enumeration alone when
   * there is one; otherwise it must match the pattern (if any) and then suit the base type.
   */
  function Matches(r: Restriction, candidate: Option<string>, rx: Regex): (res: Outcome<bool>)
    ensures candidate.None? ==> res == Ok(false)
    ensures res.Ok? || res == Throws(NullPointer) || (r.base == Some(INTEGER) && res == Throws(Arithmetic))
  {
    if candidate.None? then Ok(false)
    else
      var c := Trim(candidate.value);
      if r.enums.Some? && |r.enums.value| > 0 then EnumMatches(r.base, r.enums.value, c)
      else if r.pattern.Some? && !rx(r.pattern.value, c) then Ok(false)
      else if r.base.None? then Throws(NullPointer)
      else match r.base.value
        case INTEGER => Ok(CheckNumeric(r, c))
        case DOUBLE => Ok(CheckNumeric(r, c))
        case BOOLEAN => Ok(c == "true" || c == "false")
        case STRING => Ok(true)
  }

  /**
   * `RestrictionValue.matches` with the enumeration test as written; it differs from `Matches`
   * only on a candidate judged by a non-empty enumeration.
   */
  function MatchesAsWritten(r: Restriction, candidate: Option<string>, rx: Regex): (res: Outcome<bool>)
    ensures candidate.None? || r.enums.None? || |r.enums.value| == 0 ==> res == Matches(r, candidate, rx)
    ensures r.base != Some(INTEGER) ==> res == Matches(r, candidate, rx)
    ensures res.Ok? || res == Throws(NullPointer) || (r.base == Some(INTEGER) && res == Throws(Arithmetic))
  {
    if candidate.Some? && r.enums.Some? && |r.enums.value| > 0 then EnumMatchesAsWritten(r.base, r.enums.value, Trim(candidate.value))
    else Matches(r, candidate, rx)
  }

  /** The integer enumeration ["10"]: as written the candidate "10" is rejected, as corrected accepted. */
  lemma MatchesTenAgainstTen(rx: Regex)
    ensures var r := Restriction(Some(INTEGER), Some([Some("10")]), None, None, None, None, None);
      MatchesAsWritten(r, Some("10"), rx) == Ok(false) && Matches(r, Some("10"), rx) == Ok(true)
  {
    var r := Restriction(Some(INTEGER), Some([Some("10")]), None, None, None, None, None);
    TenParses();
    WholeEntryWithTrailingZeroRejected();
    assert Matches(r, Some("10"), rx) == EnumMatches(Some(INTEGER), [Some("10")], "10");
    assert MatchesAsWritten(r, Some("10"), rx) == EnumMatchesAsWritten(Some(INTEGER), [Some("10")], "10");
  }

  /** `formatBound`: nothing for an absent bound, else the symbol, the bound and a space. */
  function FormatBound(symbol: string, bound: Option<string>): string {
    if bound.None? then "" else symbol + bound.value + " "
  }

  function BaseName(b: XsdBase): string {
    match b
    case STRING => "STRING"
    case INTEGER => "INTEGER"
    case DOUBLE => "DOUBLE"
    case BOOLEAN => "BOOLEAN"
  }

  function EnumsPart(r: Restriction): string {
    if r.enums.Some? && |r.enums.value| > 0 then "enums: [" + Join(", ", EntryTexts(r.enums.value)) + "]" else ""
  }

  function EntryTexts(enums: seq<Option<string>>): (t: seq<string>)
    ensures |t| == |enums|
  {
    if enums == [] then [] else [OrNull(enums[0])] + EntryTexts(enums[1..])
  }

  function PatternPart(r: Restriction): string {
    if r.pattern.Some? && !IsBlank(r.pattern.value) then "pattern: /" + r.pattern.value + "/" else ""
  }

  predicate HasBound(r: Restriction) {
    r.minInclusive.Some? || r.maxInclusive.Some? || r.minExclusive.Some? || r.maxExclusive.Some?
  }

  function BoundsPart(r: Restriction): string {
    if HasBound(r) then
      "bounds: " + FormatBound("≥", r.minInclusive) + FormatBound(">", r.minExclusive)
      + FormatBound("≤", r.maxInclusive) + FormatBound("<", r.maxExclusive)
    else ""
  }

  /** Appends a part, separated from what precedes by a comma. */
  function AppendPart(acc: string, part: string): string {
    if part == "" then acc else if acc == "" then part else acc + ", " + part
  }

  /**
   * `RestrictionValue.extract`: a summary of the enumeration, the non-blank pattern and the
   * bounds that are set, separated by commas; the base type's name when there is none of them.
   */
  function Extract(r: Restriction): (s: string)
    ensures |s| > 0
  {
    var parts := AppendPart(AppendPart(EnumsPart(r), PatternPart(r)), BoundsPart(r));
    if parts != "" then parts else if r.base.Some? then BaseName(r.base.value) else "null"
  }

  /**
   * A non-empty enumeration decides alone: the pattern, the bounds and the regex engine play
   * no part in the verdict.
   */
  lemma EnumsOverridePatternAndBounds(r1: Restriction, r2: Restriction, c: Option<string>, rx1: Regex, rx2: Regex)
    requires r1.enums.Some? && |r1.enums.value| > 0
    requires r1.enums == r2.enums && r1.base == r2.base
    ensures Matches(r1, c, rx1) == Matches(r2, c, rx2)
  {}

  /** Without an enumeration, a candidate is only accepted when the pattern (if any) matches it. */
  lemma PatternGatesAcceptance(r: Restriction, c: string, rx: Regex)
    requires r.enums.None? || |r.enums.value| == 0
    requires Matches(r, Some(c), rx) == Ok(true)
    ensures r.pattern.None? || rx(r.pattern.value, Trim(c))
  {}

  /** A null base throws exactly when the verdict reaches the base: always through an
   *  enumeration, otherwise unless the pattern rejects the candidate first. */
  lemma NullBaseThrowsWhenReached(r: Restriction, c: string, rx: Regex)
    requires r.base.None?
    ensures Matches(r, Some(c), rx).Throws? <==>
      ((r.enums.Some? && |r.enums.value| > 0) || r.pattern.None? || rx(r.pattern.value, Trim(c)))
    ensures !Matches(r, Some(c), rx).Throws? ==> Matches(r, Some(c), rx) == Ok(false)
  {}

  /** A bound that does not parse makes every numeric candidate fail. */
  lemma UnparseableBoundRejectsAll(r: Restriction, c: string)
    requires (r.minInclusive.Some? && Parse(r.minInclusive.value).None?)
          || (r.maxInclusive.Some? && Parse(r.maxInclusive.value).None?)
          || (r.minExclusive.Some? && Parse(r.minExclusive.value).None?)
          || (r.maxExclusive.Some? && Parse(r.maxExclusive.value).None?)
    ensures !CheckNumeric(r, c)
  {}

  /** The half-open interval [0, 10) over integers. */
  function ZeroToTen(): Restriction {
    Restriction(Some(INTEGER), None, None, Some("0"), None, None, Some("10"))
  }

  /** A one-digit text reads as its digit, with scale zero. */
  lemma DigitParses(t: string)
    requires |t| == 1 && IsDigit(t[0])
    ensures Parse(t) == Some(Decimal(DigitValue(t[0]), 0)) && Trim(t) == t
  {
    assert Unsigned(t) == t;
    ParseDigits(t);
    assert t[..0] == "";
    TrimNoop(t);
  }

  /** The lower end of [0, 10) is inside. */
  lemma ZeroToTenHasZero()
    ensures Matches(ZeroToTen(), Some("0"), (p, t) => false) == Ok(true)
  {
    DigitParses("0");
    TenParses();
    NumericWithoutEnums(ZeroToTen(), "0", (p, t) => false);
    assert Compare(Decimal(0, 0), Decimal(0, 0)) == 0;
    assert Compare(Decimal(0, 0), Decimal(10, 0)) == -1;
  }

  /** A digit inside [0, 10) is inside. */
  lemma ZeroToTenHasNine()
    ensures Matches(ZeroToTen(), Some("9"), (p, t) => false) == Ok(true)
  {
    DigitParses("0");
    DigitParses("9");
    TenParses();
    NumericWithoutEnums(ZeroToTen(), "9", (p, t) => false);
    assert Compare(Decimal(9, 0), Decimal(0, 0)) == 1;
    assert Compare(Decimal(9, 0), Decimal(10, 0)) == -1;
  }

  /** The upper end of [0, 10) is excluded. */
  lemma ZeroToTenLacksTen()
    ensures Matches(ZeroToTen(), Some("10"), (p, t) => false) == Ok(false)
  {
    DigitParses("0");
    TenParses();
    NumericWithoutEnums(ZeroToTen(), "10", (p, t) => false);
    assert Compare(Decimal(10, 0), Decimal(10, 0)) == 0;
  }

  /** Without enumeration or pattern, a numeric base judges the trimmed candidate by its bounds. */
  lemma NumericWithoutEnums(r: Restriction, c: string, rx: Regex)
    requires r.enums.None? && r.pattern.None?
    requires r.base == Some(INTEGER) || r.base == Some(DOUBLE)
    ensures Matches(r, Some(c), rx) == Ok(CheckNumeric(r, Trim(c)))
  {
  }

  /** The integer base checks bounds only: a fractional candidate is accepted. */
  lemma IntegerBaseAcceptsFraction()
    ensures Matches(Restriction(Some(INTEGER), None, None, None, None, None, None), Some("1.5"), (p, t) => false) == Ok(true)
  {
    var r := Restriction(Some(INTEGER), None, None, None, None, None, None);
    ParsePointed("1.5", "1", "5");
    assert "1.5" == "1" + "." + "5";
    PointedText("1.5", "1", "5");
    NumericWithoutEnums(r, "1.5", (p, t) => false);
  }

  /** The boolean base accepts exactly the two literals, after trimming the candidate. */
  lemma BooleanBaseAcceptsLiterals(r: Restriction, c: string, rx: Regex)
    requires r.base == Some(BOOLEAN) && r.enums.None? && r.pattern.None?
    ensures Matches(r, Some(c), rx) == Ok(Trim(c) == "true" || Trim(c) == "false")
  {}

  /** With nothing but a base, the summary is the base's name. */
  lemma ExtractNamesBaseAlone(b: XsdBase)
    ensures Extract(Restriction(Some(b), None, None, None, None, None, None)) == BaseName(b)
  {}

  /** Appending a part to a summary keeps how the summary starts. */
  lemma AppendPartKeepsStart(acc: string, part: string, start: string)
    requires StartsWith(acc, start)
    ensures StartsWith(AppendPart(acc, part), start)
  {
    if part != "" && acc != "" {
      assert AppendPart(acc, part)[..|start|] == acc[..|start|];
    }
  }

  /** A non-empty enumeration opens the summary. */
  lemma ExtractListsEnumsFirst(r: Restriction)
    requires r.enums.Some? && |r.enums.value| > 0
    ensures StartsWith(Extract(r), "enums: [")
  {
    var e := EnumsPart(r);
    assert StartsWith(e, "enums: [");
    var p1 := AppendPart(e, PatternPart(r));
    AppendPartKeepsStart(e, PatternPart(r), "enums: [");
    AppendPartKeepsStart(p1, BoundsPart(r), "enums: [");
  }

  /** The parts the summary shows, in order: the enumeration, the pattern, the bounds, each when present. */
  function PresentParts(r: Restriction): (ps: seq<string>)
    ensures forall i :: 0 <= i < |ps| ==> ps[i] != ""
  {
    (if EnumsPart(r) != "" then [EnumsPart(r)] else [])
    + (if PatternPart(r) != "" then [PatternPart(r)] else [])
    + (if BoundsPart(r) != "" then [BoundsPart(r)] else [])
  }

  /** Joining one more part puts the separator between it and what was joined before. */
  lemma {:induction false} JoinSnoc(sep: string, ps: seq<string>, p: string)
    requires ps != []
    ensures Join(sep, ps + [p]) == Join(sep, ps) + sep + p
    decreases |ps|
  {
    if |ps| == 1 {
      assert (ps + [p])[1..] == [p];
    } else {
      assert (ps + [p])[1..] == ps[1..] + [p];
      JoinSnoc(sep, ps[1..], p);
    }
  }

  /** Appending a part to a comma-join of non-empty parts is the join of one more part, if it is not empty. */
  lemma AppendPartJoins(ps: seq<string>, p: string)
    requires forall i :: 0 <= i < |ps| ==> ps[i] != ""
    ensures AppendPart(Join(", ", ps), p) == Join(", ", ps + (if p != "" then [p] else []))
  {
    assert ps + [] == ps;
    if ps != [] {
      assert |Join(", ", ps)| >= |ps[0]| > 0;
      if p != "" {
        JoinSnoc(", ", ps, p);
      }
    }
  }

  /**
   * The summary is the comma-join, in order, of the enumeration, the pattern and the bounds that
   * are present; when none is, it is the base's name (or "null"), and only then.
   */
  lemma ExtractLayout(r: Restriction)
    ensures PresentParts(r) != [] ==> Extract(r) == Join(", ", PresentParts(r))
    ensures PresentParts(r) == [] ==> Extract(r) == (if r.base.Some? then BaseName(r.base.value) else "null")
    ensures r.base.Some? ==> (Extract(r) == BaseName(r.base.value) <==> PresentParts(r) == [])
  {
    ExtractJoinsParts(r);
    var ps := PresentParts(r);
    if ps != [] {
      JoinStartsWithFirst(", ", ps);
      FirstPartInitial(r);
      if r.base.Some? {
        BaseNameInitial(r.base.value);
        assert Extract(r)[0] == ps[0][0];
      }
    }
  }

  /** A base name opens with the capital of its type. */
  lemma BaseNameInitial(b: XsdBase)
    ensures |BaseName(b)| > 0 && BaseName(b)[0] in {'S', 'I', 'D', 'B'}
  {
  }

  /** The summary of the parts present is their comma-join. */
  lemma ExtractJoinsParts(r: Restriction)
    ensures PresentParts(r) != [] ==> Extract(r) == Join(", ", PresentParts(r))
  {
    var e := if EnumsPart(r) != "" then [EnumsPart(r)] else [];
    var p := if PatternPart(r) != "" then [PatternPart(r)] else [];
    assert Join(", ", e) == EnumsPart(r);
    AppendPartJoins(e, PatternPart(r));
    AppendPartJoins(e + p, BoundsPart(r));
  }

  /** A join opens with its first part. */
  lemma JoinStartsWithFirst(sep: string, ps: seq<string>)
    requires ps != []
    ensures |ps[0]| <= |Join(sep, ps)| && Join(sep, ps)[..|ps[0]|] == ps[0]
  {
    if |ps| > 1 {
      assert Join(sep, ps) == ps[0] + (sep + Join(sep, ps[1..]));
    }
  }

  /** The first part present opens with a lower-case letter: 'e', 'p' or 'b'. */
  lemma FirstPartInitial(r: Restriction)
    requires PresentParts(r) != []
    ensures PresentParts(r)[0][0] in {'e', 'p', 'b'}
  {
  }
}
