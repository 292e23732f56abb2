# IDS model checker for BIMserver — a Dafny model

This project models the checking core of an IDS (Information Delivery Specification) rule
checker that runs inside BIMserver over an IFC model. An IDS document holds specifications.
Each specification names the IFC versions it applies to, applicability facets that select
elements, and requirement facets that every selected element must meet. The model covers:

- **Rule values** (`values.dfy`, `simple_value.dfy`, `restriction_value.dfy`, `decimals.dfy`,
  `java_strings.dfy`). A simple value infers its kind (boolean, integer, decimal or string)
  from its own text. A restriction value implements enumeration, pattern and the four bounds
  from W3C XML Schema 1.0 Part 2, and a non-empty enumeration decides alone. Decimals follow
  `java.math.BigDecimal`: an unscaled integer and a scale, parsed by the `BigDecimal(String)`
  grammar.
- **Facets** (`facet.dfy`, `entity_facet.dfy`, `attribute_facet.dfy`,
  `classification_facet.dfy`, `partof_facet.dfy`, `property_facet.dfy`, `proptemp_facet.dfy`,
  with `property_values.dfy`, `property_bags.dfy`, `property_check.dfy`). Each facet judges one
  element and yields `(isPass, reason)`. It may also propose candidate elements (`filter`).
  `Property` is the released property facet. `PropTemp` is its draft copy, whose readings
  differ. The two share one model, told apart by a `Variant`.
- **The IFC model** (`ifc_model.dfy`, `ordered_maps.dfy`). The model is a finite object graph:
  oid ↦ class name, supertypes, ordered features and display text. Each feature is null, a
  text, a scalar, an enum, a reference or a list. Insertion-ordered Java maps are sequences of
  entries with distinct keys.
- **Orchestration** (`specification.dfy`, `ids.dfy`, `facet_decl.dfy`). `Specification` is a
  class whose `validate` method gates on the IFC version. It then picks an anchor facet, ANDs
  the other applicability facets, books each (element, requirement) pass or failure (inverted
  for a prohibited specification) and folds the status. `Ids` loops over its specifications.
  Both are proved against recursive specification functions.
- **Rule mapping** (`mappers.dfy`). This covers the mapping from the XML rule document to
  specifications and facets, the fixed facet order, and the string helpers `up`, `defCard`,
  `text` and `value`.
- **Results and report** (`results.dfy`, `result_specification.dfy`, `text_report.dfy`). This
  covers the reason-tag messages of each result class, the per-specification snapshot, and the
  append-only text report.

Java exceptions (`NullPointerException`, `ClassCastException`, `IllegalArgumentException`,
`ArithmeticException`) and runs that give no answer are part of the model. They are results
of type `Outcome<T> = Ok(value) | Throws(exn) | Diverges`, so no precondition rules them out.
`Diverges` stands for a loop that never ends and for a recursion without a base case, which
in Java ends in a `StackOverflowError`.
The user regular expressions of restriction patterns are a parameter `rx`.

## Model

| member | source | states |
|---|---|---|
| Facets.OccursOf | src/main/java/de/openfabtwin/bimserver/checkingservice/model/facet/Facet.java:20-40 | maxOccurs is "0" exactly for PROHIBITED and "unbounded" otherwise; minOccurs is "1" exactly for REQUIRED and "0" otherwise |
| Facets.OccursOfInjective | src/main/java/de/openfabtwin/bimserver/checkingservice/model/facet/Facet.java:20-40 | no two cardinalities share their (minOccurs, maxOccurs) bounds, so the bounds tell the cardinality back |
| Facets.Facet.constructor | src/main/java/de/openfabtwin/bimserver/checkingservice/model/facet/Facet.java:10-16 | a new facet is REQUIRED, has a null status and null templates, and bounds "1"/"unbounded" that agree with its cardinality |
| Facets.Facet.SetMinMaxOccurs | src/main/java/de/openfabtwin/bimserver/checkingservice/model/facet/Facet.java:20-40 | stores the cardinality and exactly the bounds it implies; status and the three templates are unchanged |
| EntityFacet.BlankToNull | src/main/java/de/openfabtwin/bimserver/checkingservice/model/facet/Entity.java:17-18 | null exactly when the input is null or blank, otherwise the input unchanged |
| EntityFacet.Make | src/main/java/de/openfabtwin/bimserver/checkingservice/model/facet/Entity.java:15-22 | the stored name falls back to "Unnamed", type and instructions to null when null or blank; the three templates are built from the raw arguments behind "All ", "Shall be " and "Shall not be " |
| EntityFacet.BlankTypeStillInTemplates | src/main/java/de/openfabtwin/bimserver/checkingservice/model/facet/Entity.java:17-19 | a blank, non-null predefined type is dropped from the facet but still spoken of in its templates |
| EntityFacet.NullNameTemplates | src/main/java/de/openfabtwin/bimserver/checkingservice/model/facet/Entity.java:16-20 | a null name is stored as "Unnamed" but rendered as "null" in the templates |
| EntityFacet.TemplatesShareSubject | src/main/java/de/openfabtwin/bimserver/checkingservice/model/facet/Entity.java:19-21 | the three templates differ only in their lead words |
| EntityFacet.Filter | src/main/java/de/openfabtwin/bimserver/checkingservice/model/facet/Entity.java:31-39 | the entity filter returns null for every model |
| EntityFacet.Type | src/main/java/de/openfabtwin/bimserver/checkingservice/model/facet/Entity.java:41-42 | the facet type is ENTITY |
| Values.Matches | src/main/java/de/openfabtwin/bimserver/checkingservice/model/Value.java:7 | dispatch of `matches` to the variant: a null candidate never matches, nothing diverges, and a simple value throws nothing but `ArithmeticException` (from stripping a number in integer mode) |
| Values.Extract | src/main/java/de/openfabtwin/bimserver/checkingservice/model/Value.java:9 | dispatch of `extract`: a simple value's text has no outer space, a restriction's summary is never empty |
| Values.SimpleRecordTextInjective | src/main/java/de/openfabtwin/bimserver/checkingservice/model/SimpleValue.java:7 | two simple values whose record texts are equal hold the same text |
| Values.ParseBigDecimalTrims | src/main/java/de/openfabtwin/bimserver/checkingservice/model/Value.java:11-15 | `parseBigDecimal` maps null to null and reads the trimmed text, so trimming first changes nothing |
| Values.PaddedDecimalParses | src/main/java/de/openfabtwin/bimserver/checkingservice/model/Value.java:11-15 | " 1.5 " reads as the decimal 15 x 10^-1 |
| Values.WordDoesNotParse | src/main/java/de/openfabtwin/bimserver/checkingservice/model/Value.java:11-15 | a word that is no decimal literal reads as null instead of failing |
| SimpleValues.KindOf | src/main/java/de/openfabtwin/bimserver/checkingservice/model/SimpleValue.java:13-26 | a null value is inferred as STRING (the kinds of a text are stated by KindOfCases) |
| SimpleValues.KindOfCases | src/main/java/de/openfabtwin/bimserver/checkingservice/model/SimpleValue.java:13-26 | for a text, in both directions: BOOLEAN iff the trimmed text is "true" or "false"; INTEGER iff otherwise it is an integer literal; DOUBLE iff otherwise it is a decimal literal; STRING iff none of these |
| SimpleValues.Matches | src/main/java/de/openfabtwin/bimserver/checkingservice/model/SimpleValue.java:28-39 | a null candidate never matches, and the only exception is `ArithmeticException` from `stripTrailingZeros` (the per-kind behaviour is stated by the lemmas below) |
| SimpleValues.Extract | src/main/java/de/openfabtwin/bimserver/checkingservice/model/SimpleValue.java:41-44 | the result has no outer space, and is "" for a null text |
| SimpleValues.IntegerLiteralParses | src/main/java/de/openfabtwin/bimserver/checkingservice/model/SimpleValue.java:51-61 | an integer literal always parses to a whole number of scale zero |
| SimpleValues.CompareReflexive | src/main/java/de/openfabtwin/bimserver/checkingservice/model/SimpleValue.java:60 | every number compares equal to itself |
| SimpleValues.MatchesOwnExtract | src/main/java/de/openfabtwin/bimserver/checkingservice/model/SimpleValue.java:28-44 | a text without outer spaces matches its own extract, except a decimal literal whose exponent or scale lies outside the `int` range (it does not parse) and an integer literal whose stripped scale leaves the `int` range (the match throws) |
| SimpleValues.PaddedBooleanMatchesNothing | src/main/java/de/openfabtwin/bimserver/checkingservice/model/SimpleValue.java:17-18 | a boolean text with outer spaces is of BOOLEAN kind but matches no candidate (the result is `false`, not an exception), because the comparison uses the untrimmed text |
| SimpleValues.IntegerKindMatches | src/main/java/de/openfabtwin/bimserver/checkingservice/model/SimpleValue.java:35-61 | for an integer-literal text: the match throws `ArithmeticException` iff the candidate parses and stripping either number overflows; otherwise a candidate matches iff it parses to a whole number equal to the stored one |
| SimpleValues.DecimalKindMatches | src/main/java/de/openfabtwin/bimserver/checkingservice/model/SimpleValue.java:36-61 | for a decimal-literal text, a candidate matches iff both texts parse and compare equal |
| SimpleValues.DecimalKindIgnoresScale | src/main/java/de/openfabtwin/bimserver/checkingservice/model/SimpleValue.java:36-61 | for a decimal-literal text, the same text with one more trailing zero matches |
| SimpleValues.StringKindMatches | src/main/java/de/openfabtwin/bimserver/checkingservice/model/SimpleValue.java:37 | for a plain-string text, a candidate matches iff its trimmed form equals the text |
| SimpleValues.WallIsPlainString | src/main/java/de/openfabtwin/bimserver/checkingservice/model/SimpleValue.java:13-26 | "Wall" is neither boolean nor number |
| SimpleValues.StringKindIsCaseSensitive | src/main/java/de/openfabtwin/bimserver/checkingservice/model/SimpleValue.java:37 | plain strings compare case-sensitively; only the candidate is trimmed |
| Decimals.Parse | src/main/java/de/openfabtwin/bimserver/checkingservice/model/Value.java:13 | `new BigDecimal(text)`: a parsed scale lies in the `int` range |
| Decimals.ParseExponent | src/main/java/de/openfabtwin/bimserver/checkingservice/model/Value.java:13 | an accepted exponent lies in the `int` range |
| Decimals.ParseDigits | src/main/java/de/openfabtwin/bimserver/checkingservice/model/Value.java:13 | a run of digits with an optional sign is a whole number of scale zero |
| Decimals.ParsePointed | src/main/java/de/openfabtwin/bimserver/checkingservice/model/Value.java:13 | digits, a point and digits: the number of all digits, scaled by the fraction length |
| Decimals.ParseWithoutExponent | src/main/java/de/openfabtwin/bimserver/checkingservice/model/Value.java:13 | a text without exponent parses to its significand's digits, scaled by its fraction length |
| Decimals.Compare | src/main/java/de/openfabtwin/bimserver/checkingservice/model/SimpleValue.java:60 | `compareTo` returns -1, 0 or 1 |
| Decimals.CompareAntisymmetric | src/main/java/de/openfabtwin/bimserver/checkingservice/model/SimpleValue.java:60 | swapping the operands of `compareTo` flips the sign |
| Decimals.StrippedScaleAtMost | src/main/java/de/openfabtwin/bimserver/checkingservice/model/SimpleValue.java:57-58 | `stripTrailingZeros` never raises the scale |
| Decimals.WholeIsIntegral | src/main/java/de/openfabtwin/bimserver/checkingservice/model/SimpleValue.java:57-58 | a number of scale zero or less is integral: the integer-only test passes it, or throws `ArithmeticException` exactly when stripping its zeros overflows |
| Decimals.TrailingZeroAppended | src/main/java/de/openfabtwin/bimserver/checkingservice/model/SimpleValue.java:60 | m x 10^-f and 10m x 10^-(f+1) compare equal |
| Decimals.TrailingZeroSameNumber | src/main/java/de/openfabtwin/bimserver/checkingservice/model/SimpleValue.java:60 | a pointed decimal text and the same text with one more trailing zero parse to equal numbers |
| JavaStrings.TrimResult | src/main/java/de/openfabtwin/bimserver/checkingservice/model/SimpleValue.java:16 | `trim()` leaves no trimmable character at either end and never lengthens |
| JavaStrings.TrimNoop | src/main/java/de/openfabtwin/bimserver/checkingservice/model/SimpleValue.java:16 | a string without outer spaces is its own trim |
| JavaStrings.TrimIdempotent | src/main/java/de/openfabtwin/bimserver/checkingservice/model/SimpleValue.java:16 | trimming twice is trimming once |
| JavaStrings.Upper | src/main/java/de/openfabtwin/bimserver/checkingservice/model/facet/PartOf.java:71 | `toUpperCase` on ASCII text: each lower-case ASCII letter becomes its capital, every other character is kept, so the length is kept (Java's full case mapping is not modelled; see Left out) |
| SimpleValues.EqualsAsDecimal | src/main/java/de/openfabtwin/bimserver/checkingservice/model/SimpleValue.java:51-61 | `equalsAsBigDecimal` throws only in integer mode, and answers true only when both texts parse to numerically equal values |
| SimpleValues.OnlyIntegerModeThrows | src/main/java/de/openfabtwin/bimserver/checkingservice/model/SimpleValue.java:33-61 | only a value of INTEGER kind can throw from `matches` |
| SimpleValues.OverflowingCandidateThrows | src/main/java/de/openfabtwin/bimserver/checkingservice/model/SimpleValue.java:35-58 | the value "5" against the candidate "100E2147483647" throws `ArithmeticException`: stripping 100 at scale -2147483647 would need scale -2147483649 |
| Decimals.StripScale | src/main/java/de/openfabtwin/bimserver/checkingservice/model/SimpleValue.java:57-58 | `stripTrailingZeros().scale()` yields a scale in the `int` range that is at most the original one (zero for the number zero), or throws `ArithmeticException`, and never for zero |
| Decimals.LiteralStripsInRange | src/main/java/de/openfabtwin/bimserver/checkingservice/model/SimpleValue.java:57-58 | a digit string, with an optional sign, of at most `Integer.MAX_VALUE` characters (the longest a Java string can be) parses, and stripping it never overflows |
| Decimals.HundredAtMaxExponent | src/main/java/de/openfabtwin/bimserver/checkingservice/model/SimpleValue.java:57-58 | "100E2147483647" parses to 100 at scale -2147483647, and stripping it throws `ArithmeticException` |
| RestrictionValues.XsdBaseFromString | src/main/java/de/openfabtwin/bimserver/checkingservice/model/RestrictionValue.java:13-19 | STRING, INTEGER, DOUBLE or BOOLEAN exactly when the name ends in ":string", ":integer"/":int", ":double" or ":boolean"; null for any other name |
| RestrictionValues.SuffixesExclusive | src/main/java/de/openfabtwin/bimserver/checkingservice/model/RestrictionValue.java:13-19 | at most one of the type suffixes applies, so the order of the tests does not matter |
| RestrictionValues.XsdPrefixedNames | src/main/java/de/openfabtwin/bimserver/checkingservice/model/RestrictionValue.java:13-19 | the `xs:`-prefixed names map to their bases and "xs:decimal" to null |
| RestrictionValues.EnumMatchesAsWritten | src/main/java/de/openfabtwin/bimserver/checkingservice/model/RestrictionValue.java:58-94 | `enumMatches` as written (integer entries must strip to scale exactly 0): a null base throws `NullPointerException` exactly, and only an INTEGER base can also throw `ArithmeticException` |
| RestrictionValues.EnumMatches | src/main/java/de/openfabtwin/bimserver/checkingservice/model/RestrictionValue.java:58-94 | corrected `enumMatches`: a null base throws exactly; only an INTEGER base can throw `ArithmeticException`; an accepted string or boolean candidate is in the enumeration; a DOUBLE base accepts iff the candidate parses and equals some parsable entry |
| RestrictionValues.TenParses | src/main/java/de/openfabtwin/bimserver/checkingservice/model/RestrictionValue.java:72-76 | "10" parses to ten with scale 0, which strips to scale -1 |
| RestrictionValues.WholeEntryWithTrailingZeroRejected | src/main/java/de/openfabtwin/bimserver/checkingservice/model/RestrictionValue.java:71-81 | the integer enumeration ["10"] as written rejects "10"; the corrected test accepts it |
| RestrictionValues.IntegerEntryMatchesItself | src/main/java/de/openfabtwin/bimserver/checkingservice/model/RestrictionValue.java:71-81 | with the corrected test, a whole-number entry's own text is accepted or throws `ArithmeticException`, and it is accepted when it fits a Java string and no earlier entry overflows |
| RestrictionValues.Matches | src/main/java/de/openfabtwin/bimserver/checkingservice/model/RestrictionValue.java:21-43 | a null candidate never matches; the outcome is a verdict, a `NullPointerException`, or, for an INTEGER base only, an `ArithmeticException` (the branches are stated by the lemmas below) |
| RestrictionValues.EntryTexts | src/main/java/de/openfabtwin/bimserver/checkingservice/model/RestrictionValue.java:101-103 | one rendered text per enumeration entry |
| RestrictionValues.Extract | src/main/java/de/openfabtwin/bimserver/checkingservice/model/RestrictionValue.java:96-123 | the summary is never empty |
| RestrictionValues.EnumsOverridePatternAndBounds | src/main/java/de/openfabtwin/bimserver/checkingservice/model/RestrictionValue.java:26-29 | a non-empty enumeration decides alone: pattern, bounds and the regex engine do not affect the verdict |
| RestrictionValues.PatternGatesAcceptance | src/main/java/de/openfabtwin/bimserver/checkingservice/model/RestrictionValue.java:31-35 | without an enumeration an accepted candidate matches the pattern when there is one |
| RestrictionValues.NullBaseThrowsWhenReached | src/main/java/de/openfabtwin/bimserver/checkingservice/model/RestrictionValue.java:27-42 | a null base throws iff the verdict reaches the base, and otherwise gives false |
| RestrictionValues.UnparseableBoundRejectsAll | src/main/java/de/openfabtwin/bimserver/checkingservice/model/RestrictionValue.java:45-56 | a bound that does not parse rejects every numeric candidate |
| RestrictionValues.DigitParses | src/main/java/de/openfabtwin/bimserver/checkingservice/model/RestrictionValue.java:47 | a one-digit text reads as its digit with scale 0 |
| RestrictionValues.ZeroToTenHasZero | src/main/java/de/openfabtwin/bimserver/checkingservice/model/RestrictionValue.java:45-56 | 0 is inside minInclusive 0, maxExclusive 10 |
| RestrictionValues.ZeroToTenHasNine | src/main/java/de/openfabtwin/bimserver/checkingservice/model/RestrictionValue.java:45-56 | 9 is inside minInclusive 0, maxExclusive 10 |
| RestrictionValues.ZeroToTenLacksTen | src/main/java/de/openfabtwin/bimserver/checkingservice/model/RestrictionValue.java:45-56 | 10 is outside maxExclusive 10 |
| RestrictionValues.IntegerBaseAcceptsFraction | src/main/java/de/openfabtwin/bimserver/checkingservice/model/RestrictionValue.java:38-39 | the integer base checks bounds only, so "1.5" is accepted |
| RestrictionValues.BooleanBaseAcceptsLiterals | src/main/java/de/openfabtwin/bimserver/checkingservice/model/RestrictionValue.java:40 | the boolean base accepts exactly the trimmed literals "true" and "false" |
| RestrictionValues.ExtractNamesBaseAlone | src/main/java/de/openfabtwin/bimserver/checkingservice/model/RestrictionValue.java:121 | with no enumeration, pattern or bound, the summary is the base's name |
| RestrictionValues.ExtractListsEnumsFirst | src/main/java/de/openfabtwin/bimserver/checkingservice/model/RestrictionValue.java:100-104 | a non-empty enumeration opens the summary with "enums: [" |
| RestrictionValues.ExtractLayout | src/main/java/de/openfabtwin/bimserver/checkingservice/model/RestrictionValue.java:96-127 | the summary is the ", "-join, in order, of the enumeration, the non-blank pattern and the bounds that are present; with none of them it is the base's name (or "null"), and with a base it is that name iff none is present |
| RestrictionValues.MatchesAsWritten | src/main/java/de/openfabtwin/bimserver/checkingservice/model/RestrictionValue.java:21-43 | `matches` as written agrees with the corrected `Matches` whenever there is no enumeration or the base is not INTEGER, and it throws nothing else than `Matches` can |
| RestrictionValues.MatchesTenAgainstTen | src/main/java/de/openfabtwin/bimserver/checkingservice/model/RestrictionValue.java:21-43 | on the INTEGER enumeration ["10"], the candidate "10" is rejected as written and accepted as corrected |
| RestrictionValues.IntegerEntriesScan | src/main/java/de/openfabtwin/bimserver/checkingservice/model/RestrictionValue.java:74-80 | the loop over integer entries yields a verdict or `ArithmeticException` |
| RestrictionValues.IntegerEntriesScanSpec | src/main/java/de/openfabtwin/bimserver/checkingservice/model/RestrictionValue.java:74-80 | the loop accepts iff some entry hits before any entry overflows, and throws iff some entry overflows before any entry hits |
| RestrictionValues.IntegerEnumMatches | src/main/java/de/openfabtwin/bimserver/checkingservice/model/RestrictionValue.java:71-81 | the INTEGER branch of `enumMatches` yields a verdict or `ArithmeticException` |
| RestrictionValues.IntegerEnumWithoutOverflow | src/main/java/de/openfabtwin/bimserver/checkingservice/model/RestrictionValue.java:71-81 | when neither the candidate nor any entry overflows, the INTEGER branch accepts iff the candidate is a whole number and some entry equals it |
| RestrictionValues.HitDecides | src/main/java/de/openfabtwin/bimserver/checkingservice/model/RestrictionValue.java:74-80 | once some entry hits, the loop no longer rejects: it accepts, or an earlier entry throws |
| RestrictionValues.NumericWithoutEnums | src/main/java/de/openfabtwin/bimserver/checkingservice/model/RestrictionValue.java:21-43 | without enumeration or pattern, a numeric restriction's `matches` is the bound check on the trimmed candidate |
| AttributeFacet.ExtractName | src/main/java/de/openfabtwin/bimserver/checkingservice/model/facet/Attribute.java:27 | `name.extract()` throws on a null name and gives the value's extract otherwise |
| AttributeFacet.Make | src/main/java/de/openfabtwin/bimserver/checkingservice/model/facet/Attribute.java:20-35 | building succeeds iff the name or the value is non-null; fields and instructions are stored as given; without a value the applicability, requirement and prohibited templates read "Data where the N is provided", "The N shall be provided" and "The N shall not be provided" with N the name's extract; with one they read "Data where the T is X", "The T shall be X" and "The T shall not be X" with T the name's record text and X the value's extract |
| AttributeFacet.NameMatches | src/main/java/de/openfabtwin/bimserver/checkingservice/model/facet/Attribute.java:50 | `name.matches(attrName)` throws on a null name and is the value's match otherwise |
| AttributeFacet.DeclaresMatch | src/main/java/de/openfabtwin/bimserver/checkingservice/model/facet/Attribute.java:47-50 | true only when some declared attribute name matches, false only when none does; only a name failure can throw |
| AttributeFacet.CollectFromSpec | src/main/java/de/openfabtwin/bimserver/checkingservice/model/facet/Attribute.java:43-57 | the collected list stays duplicate-free and holds exactly the accumulated objects plus the instances of every class that declares a match |
| AttributeFacet.CandidatesSpec | src/main/java/de/openfabtwin/bimserver/checkingservice/model/facet/Attribute.java:39-57 | the candidates are duplicate-free and are exactly the instances of the schema classes declaring a matching attribute |
| AttributeFacet.CollectFromLive | src/main/java/de/openfabtwin/bimserver/checkingservice/model/facet/Attribute.java:53 | every candidate is an object of the model |
| AttributeFacet.KeepFromSpec | src/main/java/de/openfabtwin/bimserver/checkingservice/model/facet/Attribute.java:64-72 | the kept list extends the accumulator with candidates whose attribute is set and matches, and misses none of them |
| AttributeFacet.FilterWithoutValue | src/main/java/de/openfabtwin/bimserver/checkingservice/model/facet/Attribute.java:58 | without a value the filter returns the candidates unchanged |
| AttributeFacet.FilterWithValue | src/main/java/de/openfabtwin/bimserver/checkingservice/model/facet/Attribute.java:61-74 | with a value the filter returns exactly the candidates whose attribute is non-null and whose text matches, in candidate order |
| AttributeFacet.Filter | src/main/java/de/openfabtwin/bimserver/checkingservice/model/facet/Attribute.java:37-75 | the loop computes exactly the filter's specification, including its exceptions |
| AttributeFacet.MatchesStub | src/main/java/de/openfabtwin/bimserver/checkingservice/model/facet/Attribute.java:77-81 | `matches` returns null for every element |
| AttributeFacet.Type | src/main/java/de/openfabtwin/bimserver/checkingservice/model/facet/Attribute.java:14 | the facet type is ATTRIBUTE |
| Results.TextItems | src/main/java/de/openfabtwin/bimserver/checkingservice/model/result/PropertyResult.java:20-22 | a list of texts stored in a reason, element by element |
| Results.Tagged | src/main/java/de/openfabtwin/bimserver/checkingservice/model/result/ClassificationResult.java:13 | a reason holding just the type tag carries that tag |
| Results.TaggedActual | src/main/java/de/openfabtwin/bimserver/checkingservice/model/result/ClassificationResult.java:14 | a reason with a type tag and an actual value carries both |
| Results.EntityMessage | src/main/java/de/openfabtwin/bimserver/checkingservice/model/result/EntityResult.java:11-16 | a null reason throws; the message is non-empty iff the tag is NAME or PREDEFINEDTYPE |
| Results.AttributeMessage | src/main/java/de/openfabtwin/bimserver/checkingservice/model/result/AttributeResult.java:11-24 | a null reason throws; the message is non-empty iff the tag is NOVALUE, FALSEY, INVALID, VALUE or PROHIBITED |
| Results.ClassificationMessageAsWritten | src/main/java/de/openfabtwin/bimserver/checkingservice/model/result/ClassificationResult.java:11-18 | as written: non-empty iff the tag is NOVALUE, VALUE, SYSTEM or "PROHIBITED " with a trailing space |
| Results.ClassificationMessage | src/main/java/de/openfabtwin/bimserver/checkingservice/model/result/ClassificationResult.java:11-18 | corrected: non-empty iff the tag is NOVALUE, VALUE, SYSTEM or PROHIBITED |
| Results.ProhibitedClassificationMessage | src/main/java/de/openfabtwin/bimserver/checkingservice/model/result/ClassificationResult.java:16 | the PROHIBITED reason renders "" as written and the prohibition sentence once corrected |
| Results.PartOfMessage | src/main/java/de/openfabtwin/bimserver/checkingservice/model/result/PartOfResult.java:10-21 | a null reason throws; non-empty iff the tag is NOVALUE, ENTITY, PREDEFINEDTYPE or PROHIBITED |
| Results.PropertyMessage | src/main/java/de/openfabtwin/bimserver/checkingservice/model/result/PropertyResult.java:11-29 | a null reason throws; non-empty iff the tag is NOPSET, NOVALUE, DATATYPE, VALUE or PROHIBITED |
| Results.PropertyValueWording | src/main/java/de/openfabtwin/bimserver/checkingservice/model/result/PropertyResult.java:19-25 | a one-element list is rendered by its element in the singular, with no space after "value"; a plain value uses the plural wording |
| Results.NonNull | src/main/java/de/openfabtwin/bimserver/checkingservice/model/result/Result.java:7 | a null reason map throws on first use |
| Results.Message | src/main/java/de/openfabtwin/bimserver/checkingservice/model/result/Result.java:18 | rendering succeeds for every kind iff the reason is non-null (the classification message as corrected) |
| Results.MessageAsWritten | src/main/java/de/openfabtwin/bimserver/checkingservice/model/result/Result.java:18 | rendering as written succeeds iff the reason is non-null, and agrees with `Message` for every kind but the classification one |
| Results.ProhibitedClassificationResultMessage | src/main/java/de/openfabtwin/bimserver/checkingservice/model/result/ClassificationResult.java:16 | a prohibited classification result renders "" as written and its sentence as corrected |
| Results.ClassificationTagsRender | src/main/java/de/openfabtwin/bimserver/checkingservice/model/result/ClassificationResult.java:13-16 | every tag the classification facet produces renders a non-empty message (with the corrected tag) |
| Results.PartOfTagsRender | src/main/java/de/openfabtwin/bimserver/checkingservice/model/result/PartOfResult.java:12-19 | every tag the part-of facet produces renders a non-empty message |
| Results.PropertyTagsRender | src/main/java/de/openfabtwin/bimserver/checkingservice/model/result/PropertyResult.java:13-27 | every tag the property facet produces renders a non-empty message |
| AttributeFacet.KeepFromOrder | src/main/java/de/openfabtwin/bimserver/checkingservice/model/facet/Attribute.java:61-72 | the value filter appends, in candidate order, exactly the candidates that pass the check |
| ClassificationFacet.MakeTemplates | src/main/java/de/openfabtwin/bimserver/checkingservice/model/facet/Classification.java:28-40 | templates stay null exactly when neither system nor value is given; otherwise the "using", "as" or "reference of" wording with the extracts |
| ClassificationFacet.RelatedFromSpec | src/main/java/de/openfabtwin/bimserver/checkingservice/model/facet/Classification.java:54-56 | the result stays duplicate-free and holds exactly the accumulated objects plus those referenced by the list |
| ClassificationFacet.RelationsFromSpec | src/main/java/de/openfabtwin/bimserver/checkingservice/model/facet/Classification.java:51-57 | the result stays duplicate-free and holds exactly the accumulated objects plus those related by some association |
| ClassificationFacet.FilterSpecProperties | src/main/java/de/openfabtwin/bimserver/checkingservice/model/facet/Classification.java:43-59 | no association class gives the empty list; otherwise the result is duplicate-free and holds exactly the objects some classification association relates |
| ClassificationFacet.Filter | src/main/java/de/openfabtwin/bimserver/checkingservice/model/facet/Classification.java:43-59 | the loop computes exactly the filter's specification, including its exceptions |
| ClassificationFacet.LeafOf | src/main/java/de/openfabtwin/bimserver/checkingservice/model/facet/Classification.java:174-183 | a leaf found through an association is an IfcClassificationReference object |
| ClassificationFacet.LeavesFromSpec | src/main/java/de/openfabtwin/bimserver/checkingservice/model/facet/Classification.java:174-183 | the leaves stay duplicate-free IfcClassificationReference objects and are exactly those the scanned associations point at |
| ClassificationFacet.LeavesSpecProperties | src/main/java/de/openfabtwin/bimserver/checkingservice/model/facet/Classification.java:166-185 | no association list gives no leaves; otherwise the leaves are distinct references, exactly those the element's associations point at |
| ClassificationFacet.Leaves | src/main/java/de/openfabtwin/bimserver/checkingservice/model/facet/Classification.java:166-185 | the loop computes exactly the leaf specification |
| ClassificationFacet.ParentReference | src/main/java/de/openfabtwin/bimserver/checkingservice/model/facet/Classification.java:136-138 | an inherited parent is an IfcClassificationReference object |
| ClassificationFacet.ChainFromSpec | src/main/java/de/openfabtwin/bimserver/checkingservice/model/facet/Classification.java:135-142 | the walk extends its accumulator by a chain of parents, without repeats and by at most the remaining guard steps |
| ClassificationFacet.InheritedSpecProperties | src/main/java/de/openfabtwin/bimserver/checkingservice/model/facet/Classification.java:132-145 | the inherited references form a parent chain, never repeat and number at most 50; a reference without a parent inherits nothing |
| ClassificationFacet.SelfSourcedChain | src/main/java/de/openfabtwin/bimserver/checkingservice/model/facet/Classification.java:140 | a reference that is its own source inherits exactly itself, and the walk stops on the repeat |
| ClassificationFacet.Inherited | src/main/java/de/openfabtwin/bimserver/checkingservice/model/facet/Classification.java:132-145 | the loop computes exactly the inherited-reference specification |
| ClassificationFacet.SearchFrom | src/main/java/de/openfabtwin/bimserver/checkingservice/model/facet/Classification.java:157-161 | a found system is an IfcClassification object; the only failure is a null link dereferenced |
| ClassificationFacet.ClassificationOfSpec | src/main/java/de/openfabtwin/bimserver/checkingservice/model/facet/Classification.java:147-162 | a found system is an IfcClassification object |
| ClassificationFacet.ClassificationOfCases | src/main/java/de/openfabtwin/bimserver/checkingservice/model/facet/Classification.java:150-160 | no source gives null; a classification source is the system; a non-classification source whose own source is null throws |
| ClassificationFacet.ClassificationOf | src/main/java/de/openfabtwin/bimserver/checkingservice/model/facet/Classification.java:147-162 | the loop computes exactly the system-lookup specification |
| ClassificationFacet.AddInheritedSpec | src/main/java/de/openfabtwin/bimserver/checkingservice/model/facet/Classification.java:64-65 | adding each leaf's inherited chain keeps the set duplicate-free and keeps what was there first, in order |
| ClassificationFacet.RefsSpec | src/main/java/de/openfabtwin/bimserver/checkingservice/model/facet/Classification.java:63-65 | every reference of an element is an object of the model |
| ClassificationFacet.RefsContents | src/main/java/de/openfabtwin/bimserver/checkingservice/model/facet/Classification.java:63-65 | the references exist iff the leaves can be read; they hold no object twice, start with the leaves in order, and hold exactly the leaves and the members of each leaf's inherited chain |
| ClassificationFacet.AddInheritedMembers | src/main/java/de/openfabtwin/bimserver/checkingservice/model/facet/Classification.java:63-65 | adding the inherited chains keeps what was there and adds exactly the members of each leaf's chain |
| ClassificationFacet.AnyMatchesSpec | src/main/java/de/openfabtwin/bimserver/checkingservice/model/facet/Classification.java:81-91 | some reference matches iff some reference's picked code matches the value |
| ClassificationFacet.ValueScanSpec | src/main/java/de/openfabtwin/bimserver/checkingservice/model/facet/Classification.java:78-91 | the scan collects exactly the picked codes in order and finds a match iff one of them matches |
| ClassificationFacet.SystemScanWithoutSystem | src/main/java/de/openfabtwin/bimserver/checkingservice/model/facet/Classification.java:111 | without a system the system scan never finds a match |
| ClassificationFacet.SystemScanSpec | src/main/java/de/openfabtwin/bimserver/checkingservice/model/facet/Classification.java:103-113 | a completed system scan collects, in order, the name of every classification a reference belongs to, and finds a match iff a system is given and one reference's classification name matches it |
| ClassificationFacet.AnySystemMatchesSpec | src/main/java/de/openfabtwin/bimserver/checkingservice/model/facet/Classification.java:103-113 | "some reference's classification name matches the system" holds iff it holds at some index |
| ClassificationFacet.SystemCheck | src/main/java/de/openfabtwin/bimserver/checkingservice/model/facet/Classification.java:70-117 | with references and a non-prohibited facet, a pass means some reference's classification name matches the system; without a value the facet passes exactly then, and otherwise fails with reason SYSTEM listing every classification name |
| ClassificationFacet.NoReferences | src/main/java/de/openfabtwin/bimserver/checkingservice/model/facet/Classification.java:67-75 | with no references an OPTIONAL facet passes with a null reason and a REQUIRED one fails with NOVALUE |
| ClassificationFacet.ProhibitedNeverPasses | src/main/java/de/openfabtwin/bimserver/checkingservice/model/facet/Classification.java:124-126 | a PROHIBITED facet always fails with reason PROHIBITED, whatever the references hold |
| ClassificationFacet.NoSystemPassesOnlyWhenOptionalAndEmpty | src/main/java/de/openfabtwin/bimserver/checkingservice/model/facet/Classification.java:102-122 | without a system the system check fails every result still passing, so a pass needs no references and OPTIONAL |
| ClassificationFacet.ValueCheck | src/main/java/de/openfabtwin/bimserver/checkingservice/model/facet/Classification.java:77-100 | with references and a value, no matching code means failure with VALUE and every code; a pass had a matching code |
| ClassificationFacet.References | src/main/java/de/openfabtwin/bimserver/checkingservice/model/facet/Classification.java:63-65 | the loop computes exactly the reference set specification |
| ClassificationFacet.ScanValues | src/main/java/de/openfabtwin/bimserver/checkingservice/model/facet/Classification.java:78-91 | the loop computes exactly the value scan |
| ClassificationFacet.ScanSystems | src/main/java/de/openfabtwin/bimserver/checkingservice/model/facet/Classification.java:103-113 | the loop computes exactly the system scan |
| ClassificationFacet.Matches | src/main/java/de/openfabtwin/bimserver/checkingservice/model/facet/Classification.java:61-129 | the method computes exactly the result specification: references, value check, system check, then the cardinality |
| PartOfFacet.MakeTemplates | src/main/java/de/openfabtwin/bimserver/checkingservice/model/facet/PartOf.java:29-40 | the requirement template is always set; applicability and prohibition stay null exactly when both name and type are given; without a name the sentence speaks of the relation alone |
| PartOfFacet.CollectClassesSpec | src/main/java/de/openfabtwin/bimserver/checkingservice/model/facet/PartOf.java:50-56 | the collected list stays duplicate-free and holds exactly the accumulator plus the instances of the scanned classes |
| PartOfFacet.FilterSpecProperties | src/main/java/de/openfabtwin/bimserver/checkingservice/model/facet/PartOf.java:43-58 | `filter` yields every instance of some schema class, each once |
| PartOfFacet.Filter | src/main/java/de/openfabtwin/bimserver/checkingservice/model/facet/PartOf.java:43-58 | the loop computes exactly the filter's specification |
| PartOfFacet.Accepts | src/main/java/de/openfabtwin/bimserver/checkingservice/model/facet/PartOf.java:300-302 | an accepted relation is a live object; the only failures are a cast failure or a null relation whose class is read directly (group assignment) |
| PartOfFacet.FirstTarget | src/main/java/de/openfabtwin/bimserver/checkingservice/model/facet/PartOf.java:220-229 | the scan never diverges and a found target is an object of the model |
| PartOfFacet.FirstTargetSpec | src/main/java/de/openfabtwin/bimserver/checkingservice/model/facet/PartOf.java:220-229 | the scan finds nothing iff every relation is accepted and supplies no target; a found target is the first supplying relation's target |
| PartOfFacet.FindTarget | src/main/java/de/openfabtwin/bimserver/checkingservice/model/facet/PartOf.java:220-229 | the loop computes exactly the first-target specification |
| PartOfFacet.LookupIn | src/main/java/de/openfabtwin/bimserver/checkingservice/model/facet/PartOf.java:161-187 | a lookup over several lists never diverges and a found target is an object |
| PartOfFacet.Lookup | src/main/java/de/openfabtwin/bimserver/checkingservice/model/facet/PartOf.java:160-274 | each relationship lookup never diverges and a found target is an object |
| PartOfFacet.LookupInSpec | src/main/java/de/openfabtwin/bimserver/checkingservice/model/facet/PartOf.java:175-186 | a fallback list is read only when every earlier list yields no target; the first list that yields one decides |
| PartOfFacet.LookupLink | src/main/java/de/openfabtwin/bimserver/checkingservice/model/facet/PartOf.java:160-274 | the loop computes exactly the lookup specification |
| PartOfFacet.Parent | src/main/java/de/openfabtwin/bimserver/checkingservice/model/facet/PartOf.java:277-296 | the aggregate, nest and container lookups run (and can throw) but only the connected element is the parent |
| PartOfFacet.ParentIgnoresDecomposition | src/main/java/de/openfabtwin/bimserver/checkingservice/model/facet/PartOf.java:280-282 | an aggregation parent is no parent for the generic walk when nothing is connected |
| PartOfFacet.GetParent | src/main/java/de/openfabtwin/bimserver/checkingservice/model/facet/PartOf.java:277-296 | the method computes exactly the parent specification |
| PartOfFacet.IsTypeIgnoresCase | src/main/java/de/openfabtwin/bimserver/checkingservice/model/facet/PartOf.java:300-302 | comparing the upper-cased class with an upper-cased name is `equalsIgnoreCase` on the name as written |
| PartOfFacet.PredefinedTypeOf | src/main/java/de/openfabtwin/bimserver/checkingservice/model/facet/PartOf.java:304-309 | null iff the class has no PredefinedType feature or it holds null; otherwise its text |
| PartOfFacet.EndWithNoValue | src/main/java/de/openfabtwin/bimserver/checkingservice/model/facet/PartOf.java:311-314 | always a failure; tagged PROHIBITED exactly for a prohibited facet and NOVALUE otherwise |
| PartOfFacet.CheckDirectTarget | src/main/java/de/openfabtwin/bimserver/checkingservice/model/facet/PartOf.java:316-323 | a null or blank name accepts any target; otherwise the upper-cased class must equal the name and a requested type the target's type |
| PartOfFacet.MkEntityOrPredefReason | src/main/java/de/openfabtwin/bimserver/checkingservice/model/facet/PartOf.java:325-334 | throws iff a type is requested and the target has none; PREDEFINEDTYPE with the target's type iff the requested type differs, else ENTITY with the upper-cased class |
| PartOfFacet.ExtractOrThrow | src/main/java/de/openfabtwin/bimserver/checkingservice/model/facet/PartOf.java:108 | `extract()` throws on a null value and is the value's extract otherwise |
| PartOfFacet.Next | src/main/java/de/openfabtwin/bimserver/checkingservice/model/facet/PartOf.java:80 | the next node of a walk is an object of the model, and computing it never diverges (also lines 100, 135) |
| PartOfFacet.Label | src/main/java/de/openfabtwin/bimserver/checkingservice/model/facet/PartOf.java:71-77 | a recorded entry opens with the upper-cased class name, and is exactly that without a requested type |
| PartOfFacet.Hit | src/main/java/de/openfabtwin/bimserver/checkingservice/model/facet/PartOf.java:75 | only the nesting walk with a requested type can hit; every other comparison is false (also lines 78, 130, 133) |
| PartOfFacet.WalkRecords | src/main/java/de/openfabtwin/bimserver/checkingservice/model/facet/PartOf.java:68-81 | a walk keeps the entries it was given and records one entry per visited node, the first for the starting node |
| PartOfFacet.WalkFailureTrail | src/main/java/de/openfabtwin/bimserver/checkingservice/model/facet/PartOf.java:68-82 | a walk that ends without a hit keeps the entries it was given and then holds, in order, the label of every node it visited: a chain from the start in which each node missed and led to the next, and the last had no next node |
| PartOfFacet.TrailCons | src/main/java/de/openfabtwin/bimserver/checkingservice/model/facet/PartOf.java:68-82 | a missed node whose next node starts a failed trail extends that trail by its own label |
| PartOfFacet.WalkMissStep | src/main/java/de/openfabtwin/bimserver/checkingservice/model/facet/PartOf.java:68-82 | one step of a walk without a hit: the node missed and the walk went on from its next node, not yet visited |
| PartOfFacet.UntypedComparisonNeverHits | src/main/java/de/openfabtwin/bimserver/checkingservice/model/facet/PartOf.java:75-98 | the generic and aggregation walks never succeed |
| PartOfFacet.WalkUp | src/main/java/de/openfabtwin/bimserver/checkingservice/model/facet/PartOf.java:68-81 | the loop computes exactly the walk specification, including divergence when a node repeats |
| PartOfFacet.WalkVerdict | src/main/java/de/openfabtwin/bimserver/checkingservice/model/facet/PartOf.java:82 | a failed walk carries the recorded chain as an ENTITY reason; a successful one has no reason |
| PartOfFacet.GenericVerdict | src/main/java/de/openfabtwin/bimserver/checkingservice/model/facet/PartOf.java:66-83 | the relation-less branch always reaches a target verdict |
| PartOfFacet.AncestorVerdict | src/main/java/de/openfabtwin/bimserver/checkingservice/model/facet/PartOf.java:84-104 | no first parent means no target; a null name passes without a walk (also lines 119-139) |
| PartOfFacet.DirectVerdict | src/main/java/de/openfabtwin/bimserver/checkingservice/model/facet/PartOf.java:105-118 | no target means none; with a target a null name or type throws; a pass has no reason (also lines 148-150) |
| PartOfFacet.VoidTarget | src/main/java/de/openfabtwin/bimserver/checkingservice/model/facet/PartOf.java:140-151 | an opening's target is its voided element; any other element's target is the voided element of the opening it fills, none when it fills none, and a failed fill lookup is passed on |
| PartOfFacet.BranchOf | src/main/java/de/openfabtwin/bimserver/checkingservice/model/facet/PartOf.java:66-140 | each relation text selects exactly its branch; a null relation the generic walk |
| PartOfFacet.Evaluate | src/main/java/de/openfabtwin/bimserver/checkingservice/model/facet/PartOf.java:61-151 | every reason the dispatch produces for a resolved target is ENTITY or PREDEFINEDTYPE |
| PartOfFacet.ProhibitedInverts | src/main/java/de/openfabtwin/bimserver/checkingservice/model/facet/PartOf.java:153-155 | a prohibited facet fails exactly when the required one does; with a resolved target its verdict is negated, with none both fail (also lines 311-313) |
| PartOfFacet.GenericWalkNeverPasses | src/main/java/de/openfabtwin/bimserver/checkingservice/model/facet/PartOf.java:66-83 | without a relation a required facet always fails with ENTITY and a prohibited one always passes |
| PartOfFacet.NamedAggregationNeverPasses | src/main/java/de/openfabtwin/bimserver/checkingservice/model/facet/PartOf.java:84-104 | a named aggregation facet never passes unless prohibited: NOVALUE without a parent, ENTITY otherwise |
| PartOfFacet.NestingWalkStaysPut | src/main/java/de/openfabtwin/bimserver/checkingservice/model/facet/PartOf.java:119-139 | the nesting walk re-reads the element's first nest parent: a miss loops for ever, and without a requested type a named facet never ends |
| PartOfFacet.DirectTargetNeedsNameAndType | src/main/java/de/openfabtwin/bimserver/checkingservice/model/facet/PartOf.java:105-118 | for the group and containment relations, a found target with a null name or type throws |
| PartOfFacet.UnsetNameAcceptsAnyGroup | src/main/java/de/openfabtwin/bimserver/checkingservice/model/facet/PartOf.java:108 | a name whose value is unset extracts to "", so any group passes (also lines 317) |
| PartOfFacet.UnknownRelation | src/main/java/de/openfabtwin/bimserver/checkingservice/model/facet/PartOf.java:61-157 | an unknown relation fails with a null reason, or passes when prohibited |
| PartOfFacet.DirectCheck | src/main/java/de/openfabtwin/bimserver/checkingservice/model/facet/PartOf.java:105-118 | the method computes exactly the single-hop verdict |
| PartOfFacet.Dispatch | src/main/java/de/openfabtwin/bimserver/checkingservice/model/facet/PartOf.java:61-151 | the method computes exactly the dispatch specification |
| PartOfFacet.Matches | src/main/java/de/openfabtwin/bimserver/checkingservice/model/facet/PartOf.java:61-158 | the method computes exactly the result specification |
| PartOfFacet.Type | src/main/java/de/openfabtwin/bimserver/checkingservice/model/facet/PartOf.java:15 | the facet type is PARTOF |
| Specifications.VersionFromString | src/main/java/de/openfabtwin/bimserver/checkingservice/model/Specification.java:132-139 | the trimmed, upper-cased text is IFC2X3 or IFC4, never IFC4X3_ADD2; anything else throws IllegalArgumentException |
| Specifications.ProjectVersion | src/main/java/de/openfabtwin/bimserver/checkingservice/model/Specification.java:35-37 | a project's version is never IFC4X3_ADD2 |
| Specifications.Tc1IsIfc2x3 | src/main/java/de/openfabtwin/bimserver/checkingservice/model/Specification.java:36 | a schema reading IFC2X3TC1 in any case is an IFC2X3 project |
| Specifications.Repeat | src/main/java/de/openfabtwin/bimserver/checkingservice/model/Specification.java:94-96 | n copies of a value |
| Specifications.Cleanly | src/main/java/de/openfabtwin/bimserver/checkingservice/model/Specification.java:28-32 | the initial run state has one empty entry per requirement |
| Specifications.FirstEntityFrom | src/main/java/de/openfabtwin/bimserver/checkingservice/model/Specification.java:46-47 | the index found is the first Entity facet from k on, or the end |
| Specifications.Anchor | src/main/java/de/openfabtwin/bimserver/checkingservice/model/Specification.java:46-48 | the anchor is the first Entity facet when there is one, else the first facet |
| Specifications.OthersPassSpec | src/main/java/de/openfabtwin/bimserver/checkingservice/model/Specification.java:53-60 | an element is applicable iff every applicability facet other than the anchor passes it |
| Specifications.ApplicableAmongMembers | src/main/java/de/openfabtwin/bimserver/checkingservice/model/Specification.java:52-62 | the accepted elements are exactly the candidates the applicability test accepts |
| Specifications.Account | src/main/java/de/openfabtwin/bimserver/checkingservice/model/Specification.java:63-83 | the requirement loop keeps one run-state entry per requirement |
| Specifications.AccountCounts | src/main/java/de/openfabtwin/bimserver/checkingservice/model/Specification.java:63-83 | a completed requirement loop adds one passed-or-failed entry per requirement and changes no status, flag or applicable list |
| Specifications.AccountSpecLists | src/main/java/de/openfabtwin/bimserver/checkingservice/model/Specification.java:63-83 | a completed requirement loop appends the element to the specification's passed list once per passing requirement (failing, when prohibited) and to its failed list once per other requirement |
| Specifications.AccountPerFacet | src/main/java/de/openfabtwin/bimserver/checkingservice/model/Specification.java:63-83 | each requirement books the element once: a pass (a failure when prohibited) in its passed list, otherwise one failure with the result's message; earlier requirements are untouched |
| Specifications.StatusOf | src/main/java/de/openfabtwin/bimserver/checkingservice/model/Specification.java:86-89 | each facet's status is "no failures recorded" |
| Specifications.Conclude | src/main/java/de/openfabtwin/bimserver/checkingservice/model/Specification.java:85-100 | the status fold and occurrence checks keep the run's shape |
| Specifications.ConcludeSettles | src/main/java/de/openfabtwin/bimserver/checkingservice/model/Specification.java:85-100 | once an element is applicable, the status is the AND of the facet statuses (false for a prohibited specification without requirements), and only statuses change |
| Specifications.ScanApplicable | src/main/java/de/openfabtwin/bimserver/checkingservice/model/Specification.java:52-62 | the applicable list grows by exactly the accepted candidates, in candidate order; when none is accepted the run is untouched |
| Specifications.ScanBalances | src/main/java/de/openfabtwin/bimserver/checkingservice/model/Specification.java:52-101 | the element loop keeps |passed| + |failed| == |applicable| x |requirements| |
| Specifications.ScanSettles | src/main/java/de/openfabtwin/bimserver/checkingservice/model/Specification.java:85-100 | once an element has been accepted the status stays settled to the end of the loop |
| Specifications.UnsupportedRecordsOnlyFlag | src/main/java/de/openfabtwin/bimserver/checkingservice/model/Specification.java:42 | a known but unlisted version records only the flag, false |
| Specifications.ValidateAccounts | src/main/java/de/openfabtwin/bimserver/checkingservice/model/Specification.java:41-104 | a completed `validate` keeps the books balanced and leaves a settled status when some element was applicable |
| Specifications.ScanRejectsAll | src/main/java/de/openfabtwin/bimserver/checkingservice/model/Specification.java:52-61 | when every candidate is rejected the loop changes nothing |
| Specifications.ValidateScans | src/main/java/de/openfabtwin/bimserver/checkingservice/model/Specification.java:41-104 | past the version gate `validate` is the element loop over the anchor's candidates, then the log line that unboxes the status |
| Specifications.NothingApplicableThrows | src/main/java/de/openfabtwin/bimserver/checkingservice/model/Specification.java:102 | with nothing applicable, a status left null makes the closing log line throw |
| Specifications.Specification.constructor | src/main/java/de/openfabtwin/bimserver/checkingservice/model/Specification.java:20-32 | a new specification is "Unnamed", with empty lists and null fields, flag and status |
| Specifications.Specification.SetName | src/main/java/de/openfabtwin/bimserver/checkingservice/model/Specification.java:121-123 | a null or blank name becomes "Unnamed"; the stored name is never blank |
| Specifications.Specification.AddRequirement | src/main/java/de/openfabtwin/bimserver/checkingservice/model/Specification.java:112 | a requirement appended with a fresh run entry; nothing else changes |
| Specifications.Specification.ResetStatus | src/main/java/de/openfabtwin/bimserver/checkingservice/model/Specification.java:28-32 | the run state returns to its initial value |
| Specifications.Specification.SetApplicableEntities | src/main/java/de/openfabtwin/bimserver/checkingservice/model/Specification.java:28 | the applicable list is replaced; nothing else changes |
| Specifications.Specification.CheckIfcVersion | src/main/java/de/openfabtwin/bimserver/checkingservice/model/Specification.java:34-39 | succeeds iff the schema names a known version; records and returns whether it is listed; a failure throws IllegalArgumentException and changes nothing |
| Specifications.Specification.OthersPassFor | src/main/java/de/openfabtwin/bimserver/checkingservice/model/Specification.java:53-60 | the loop computes exactly the applicability test |
| Specifications.Specification.AccountFor | src/main/java/de/openfabtwin/bimserver/checkingservice/model/Specification.java:63-83 | the loop computes exactly the requirement accounting |
| Specifications.Specification.FoldStatus | src/main/java/de/openfabtwin/bimserver/checkingservice/model/Specification.java:85-89 | each facet status becomes "no failures", the status their AND |
| Specifications.Specification.FailAll | src/main/java/de/openfabtwin/bimserver/checkingservice/model/Specification.java:91-97 | the status and every facet's status become false |
| Specifications.Specification.ConcludeElement | src/main/java/de/openfabtwin/bimserver/checkingservice/model/Specification.java:85-100 | computes exactly the status fold and the occurrence checks |
| Specifications.Specification.ScanElements | src/main/java/de/openfabtwin/bimserver/checkingservice/model/Specification.java:52-101 | the loop computes exactly the element-loop specification |
| Specifications.Specification.Validate | src/main/java/de/openfabtwin/bimserver/checkingservice/model/Specification.java:41-104 | computes exactly the `validate` specification, including the states left by exceptions |
| ResultSpecifications.Snapshot | src/main/java/de/openfabtwin/bimserver/checkingservice/report/ResultSpecification.java:24-34 | the snapshot exists iff the status and version flag are non-null (a null one throws NullPointerException); it copies the four descriptive fields, status and flag, and the sizes of the applicable, passed and failed lists, leaving check counts zero and the rest null |
| ResultSpecifications.SnapshotBalanced | src/main/java/de/openfabtwin/bimserver/checkingservice/report/ResultSpecification.java:31-33 | after a completed `validate`, passed + failed in the snapshot equals applicable x requirements |
| ResultSpecifications.ResetSnapshotThrows | src/main/java/de/openfabtwin/bimserver/checkingservice/report/ResultSpecification.java:29 | a snapshot of a freshly reset specification throws NullPointerException, its status being null |
| IdsDocuments.NewResults | src/main/java/de/openfabtwin/bimserver/checkingservice/report/Results.java:25-27 | the results constructor leaves the snapshot list null |
| IdsDocuments.AddSpec | src/main/java/de/openfabtwin/bimserver/checkingservice/model/Ids.java:44 | appending to the results succeeds iff the list exists (else NullPointerException), and appends exactly the snapshot |
| IdsDocuments.LastFilterWins | src/main/java/de/openfabtwin/bimserver/checkingservice/model/Ids.java:34-36 | when no filter throws, the applicable list is the last applicability facet's filter result |
| IdsDocuments.PrepareSpec | src/main/java/de/openfabtwin/bimserver/checkingservice/model/Ids.java:27-37 | a specification's preparation keeps one run entry per requirement |
| IdsDocuments.PrepareLeavesStatusNull | src/main/java/de/openfabtwin/bimserver/checkingservice/model/Ids.java:27-42 | preparation records no pass, no failure and no status: the status stays null |
| IdsDocuments.NonEmptyNeverValidates | src/main/java/de/openfabtwin/bimserver/checkingservice/model/Ids.java:26-45 | a non-empty specification list never validates: the first snapshot reads a null status |
| IdsDocuments.Views | src/main/java/de/openfabtwin/bimserver/checkingservice/model/Ids.java:26 | one header-and-rules view per specification |
| IdsDocuments.ViewsAt | src/main/java/de/openfabtwin/bimserver/checkingservice/model/Ids.java:26 | the k-th view is the k-th specification's header and rules |
| IdsDocuments.HandOver | src/main/java/de/openfabtwin/bimserver/checkingservice/model/Ids.java:32-37 | the loop leaves exactly the list the hand-over specification computes and changes nothing else |
| IdsDocuments.Prepare | src/main/java/de/openfabtwin/bimserver/checkingservice/model/Ids.java:27-37 | the reset, version check and hand-over leave exactly the prepared state |
| IdsDocuments.TakeTurn | src/main/java/de/openfabtwin/bimserver/checkingservice/model/Ids.java:27-44 | one turn computes exactly the turn specification and leaves header and rules unchanged |
| IdsDocuments.Ids.constructor | src/main/java/de/openfabtwin/bimserver/checkingservice/model/Ids.java:17-18 | a new document has no info entries and no specifications |
| IdsDocuments.Ids.PutInfo | src/main/java/de/openfabtwin/bimserver/checkingservice/model/Ids.java:17-20 | putting an info entry: a new key goes last, an existing key keeps its place, and the key then maps to the value |
| IdsDocuments.Ids.Validate | src/main/java/de/openfabtwin/bimserver/checkingservice/model/Ids.java:23-48 | the loop computes exactly `validate` over the specifications' initial views |
| TextReports.IntToString | src/main/java/de/openfabtwin/bimserver/checkingservice/report/TextReport.java:40 | a number's text is its decimal digits, led by "-" when negative |
| TextReports.JavaDiv | src/main/java/de/openfabtwin/bimserver/checkingservice/report/TextReport.java:40 | Java int division truncates toward zero, for either sign of the dividend |
| TextReports.SpecText | src/main/java/de/openfabtwin/bimserver/checkingservice/report/TextReport.java:31-60 | a specification's text exists iff its status is non-null; a null status prints nothing and throws NullPointerException |
| TextReports.Sections | src/main/java/de/openfabtwin/bimserver/checkingservice/report/TextReport.java:28 | the specifications print in order and the report completes iff every status is non-null; otherwise it throws NullPointerException |
| TextReports.ReportText | src/main/java/de/openfabtwin/bimserver/checkingservice/report/TextReport.java:17-29 | the report completes iff every specification's status is non-null |
| TextReports.SpecTextOpensWithMarker | src/main/java/de/openfabtwin/bimserver/checkingservice/report/TextReport.java:32-34 | a specification's text opens with "[PASS] " for a true status and "[FAIL] " for a false one; no third marker is reachable |
| TextReports.ReportOpensWithBanner | src/main/java/de/openfabtwin/bimserver/checkingservice/report/TextReport.java:19-21 | every report opens with the "IDS Report" banner and its blank line |
| TextReports.InfoLinesAppend | src/main/java/de/openfabtwin/bimserver/checkingservice/report/TextReport.java:23-25 | the info block of two entry lists is the two blocks in order |
| TextReports.NullInfoSkipped | src/main/java/de/openfabtwin/bimserver/checkingservice/report/TextReport.java:24 | an info entry with a null value prints nothing, wherever it stands |
| TextReports.RatioCases | src/main/java/de/openfabtwin/bimserver/checkingservice/report/TextReport.java:36-40 | the ratio column is "1" when nothing failed, "0" when some but not all failed, the no-entities text when nothing is applicable or everything failed, and negative when failures reach twice the applicable count |
| TextReports.LineHasOneBreak | src/main/java/de/openfabtwin/bimserver/checkingservice/report/TextReport.java:67-69 | a printed line of break-free text holds exactly one line break |
| TextReports.NumberHasNoBreak | src/main/java/de/openfabtwin/bimserver/checkingservice/report/TextReport.java:64 | a number's text holds no line break |
| TextReports.FailureHasOneBreak | src/main/java/de/openfabtwin/bimserver/checkingservice/report/TextReport.java:54-65 | a failure whose reason has no break prints on exactly one line |
| TextReports.FailureLinesCount | src/main/java/de/openfabtwin/bimserver/checkingservice/report/TextReport.java:54-57 | a requirement's failures print one line each |
| TextReports.RequirementLinesCount | src/main/java/de/openfabtwin/bimserver/checkingservice/report/TextReport.java:51-58 | the requirements section has one line per requirement facet plus one per recorded failure |
| TextReports.Pages | src/main/java/de/openfabtwin/bimserver/checkingservice/report/TextReport.java:28 | one page per specification, in order |
| TextReports.TextReport.constructor | src/main/java/de/openfabtwin/bimserver/checkingservice/report/TextReport.java:12-15 | a new report holds the document and an empty text |
| TextReports.TextReport.Print | src/main/java/de/openfabtwin/bimserver/checkingservice/report/TextReport.java:67-69 | appends the line and a line break |
| TextReports.TextReport.PrintEnd | src/main/java/de/openfabtwin/bimserver/checkingservice/report/TextReport.java:71-73 | appends the text and the ending |
| TextReports.TextReport.ToString | src/main/java/de/openfabtwin/bimserver/checkingservice/report/TextReport.java:75-77 | returns everything printed, unchanged |
| TextReports.TextReport.PrintBare | src/main/java/de/openfabtwin/bimserver/checkingservice/report/TextReport.java:71-73 | appends the text alone |
| TextReports.TextReport.PrintFacets | src/main/java/de/openfabtwin/bimserver/checkingservice/report/TextReport.java:47-49 | appends exactly one indented line per applicability facet |
| TextReports.TextReport.ReportReason | src/main/java/de/openfabtwin/bimserver/checkingservice/report/TextReport.java:62-65 | appends the reason and the oid line |
| TextReports.TextReport.PrintFailure | src/main/java/de/openfabtwin/bimserver/checkingservice/report/TextReport.java:55-56 | appends the twelve-space indent and the reason line |
| TextReports.TextReport.PrintFailures | src/main/java/de/openfabtwin/bimserver/checkingservice/report/TextReport.java:54-57 | appends exactly the failure lines |
| TextReports.TextReport.PrintRequirement | src/main/java/de/openfabtwin/bimserver/checkingservice/report/TextReport.java:53-57 | appends the requirement's line and its failure lines |
| TextReports.TextReport.PrintRequirements | src/main/java/de/openfabtwin/bimserver/checkingservice/report/TextReport.java:52-58 | appends exactly the requirements section |
| TextReports.TextReport.PrintHeadline | src/main/java/de/openfabtwin/bimserver/checkingservice/report/TextReport.java:32-43 | appends the marker, ratio, separator (absent only for minOccurs "0") and name |
| TextReports.TextReport.ReportSpecification | src/main/java/de/openfabtwin/bimserver/checkingservice/report/TextReport.java:31-60 | appends exactly the specification's text, or nothing and throws on a null status |
| TextReports.TextReport.Report | src/main/java/de/openfabtwin/bimserver/checkingservice/report/TextReport.java:17-29 | appends exactly the report text for the document's info and specifications |
| TextReports.TextReport.PrintInfo | src/main/java/de/openfabtwin/bimserver/checkingservice/report/TextReport.java:23-25 | appends exactly the non-null info entries, in map order |
| TextReports.TextReport.PrintSections | src/main/java/de/openfabtwin/bimserver/checkingservice/report/TextReport.java:28 | appends the specifications' texts in order, stopping at the first that throws |
| Mappers.Up | src/main/java/de/openfabtwin/bimserver/checkingservice/model/Mappers.java:129 | `up` is null exactly when its argument is |
| Mappers.UpNormal | src/main/java/de/openfabtwin/bimserver/checkingservice/model/Mappers.java:129 | `up` yields text with no outer space and no lower-case letter, leaves such text unchanged, and is idempotent |
| Mappers.DefCard | src/main/java/de/openfabtwin/bimserver/checkingservice/model/Mappers.java:130 | the defaulted cardinality is never blank, and a non-blank one is kept as given |
| Mappers.Text | src/main/java/de/openfabtwin/bimserver/checkingservice/model/Mappers.java:132-139 | `text` is the simple value when that is not blank, else an enumeration value of the restriction, else null |
| Mappers.ValueOf | src/main/java/de/openfabtwin/bimserver/checkingservice/model/Mappers.java:141-153 | `value` is present iff a simple value or restriction is; a simple value (even a blank one) wins, else the restriction's enumeration and pattern values in order |
| Mappers.TextValueAgree | src/main/java/de/openfabtwin/bimserver/checkingservice/model/Mappers.java:132-153 | `text` and `value` agree on a non-blank simple value; on a blank one `value` keeps it while `text` falls back to the first enumeration value |
| Mappers.MapEntity | src/main/java/de/openfabtwin/bimserver/checkingservice/model/Mappers.java:80-87 | an entity facet whose name and predefined type are trimmed and upper-cased, with the element's instructions |
| Mappers.MapPartOf | src/main/java/de/openfabtwin/bimserver/checkingservice/model/Mappers.java:89-93 | a partOf facet keeping the raw cardinality; without an entity element its name and type are null |
| Mappers.MapClassification | src/main/java/de/openfabtwin/bimserver/checkingservice/model/Mappers.java:95-101 | a classification facet with a non-blank cardinality |
| Mappers.MapAttribute | src/main/java/de/openfabtwin/bimserver/checkingservice/model/Mappers.java:103-109 | an attribute facet with a non-blank cardinality |
| Mappers.MapProperty | src/main/java/de/openfabtwin/bimserver/checkingservice/model/Mappers.java:111-118 | a property facet with a non-blank cardinality and a normalised data type |
| Mappers.MapMaterial | src/main/java/de/openfabtwin/bimserver/checkingservice/model/Mappers.java:120-125 | a material facet with a non-blank cardinality |
| Mappers.Mapped | src/main/java/de/openfabtwin/bimserver/checkingservice/model/Mappers.java:34-38 | one facet per element, in document order |
| Mappers.MappedDescription | src/main/java/de/openfabtwin/bimserver/checkingservice/model/Mappers.java:24 | the specification's own description wins unless null or blank; only then is it replaced, by the requirements' description (also lines 72-74) |
| Mappers.VersionsFromSpec | src/main/java/de/openfabtwin/bimserver/checkingservice/model/Mappers.java:16-21 | the version loop succeeds iff every token is known, appends one version per token in order, and otherwise throws IllegalArgumentException |
| Mappers.VersionsSpec | src/main/java/de/openfabtwin/bimserver/checkingservice/model/Mappers.java:16-21 | the versions are the tokens read in order, never IFC4X3_ADD2; one unknown token throws IllegalArgumentException |
| Mappers.MappedHeader | src/main/java/de/openfabtwin/bimserver/checkingservice/model/Mappers.java:15-25 | a mapped specification's name is never blank |
| Mappers.RankedAppend | src/main/java/de/openfabtwin/bimserver/checkingservice/model/Mappers.java:33-38 | appending a later facet group keeps the groups in order |
| Mappers.EntitiesRank | src/main/java/de/openfabtwin/bimserver/checkingservice/model/Mappers.java:46-48 | the entity loop emits entity facets only |
| Mappers.PartOfsRank | src/main/java/de/openfabtwin/bimserver/checkingservice/model/Mappers.java:34-54 | the partOf loop emits partOf facets only |
| Mappers.ClassificationsRank | src/main/java/de/openfabtwin/bimserver/checkingservice/model/Mappers.java:35-58 | the classification loop emits classification facets only |
| Mappers.AttributesRank | src/main/java/de/openfabtwin/bimserver/checkingservice/model/Mappers.java:36-62 | the attribute loop emits attribute facets only |
| Mappers.PropertiesRank | src/main/java/de/openfabtwin/bimserver/checkingservice/model/Mappers.java:37-66 | the property loop emits property facets only |
| Mappers.MaterialsRank | src/main/java/de/openfabtwin/bimserver/checkingservice/model/Mappers.java:38-70 | the material loop emits material facets only |
| Mappers.AppRanked | src/main/java/de/openfabtwin/bimserver/checkingservice/model/Mappers.java:33-38 | applicability facets come grouped: entity, partOf, classification, attribute, property, material |
| Mappers.ReqRanked | src/main/java/de/openfabtwin/bimserver/checkingservice/model/Mappers.java:45-70 | requirement facets come grouped the same way, entities first |
| Mappers.AnchorIsMappedEntity | src/main/java/de/openfabtwin/bimserver/checkingservice/model/Mappers.java:33 | the first applicability facet is the anchor; it is the entity facet when the element has one, and no other applicability facet is an entity |
| Mappers.NoEntityAppend | src/main/java/de/openfabtwin/bimserver/checkingservice/model/Mappers.java:34-38 | appending non-entity groups adds no entity facet and keeps the prefix |
| Mappers.MappedFacetsWellMapped | src/main/java/de/openfabtwin/bimserver/checkingservice/model/Mappers.java:80-125 | every mapped facet has normalised names, types and data types and, where defaulted, a non-blank cardinality |
| Mappers.CardTracksAppend | src/main/java/de/openfabtwin/bimserver/checkingservice/model/Mappers.java:51-70 | after a requirement loop the stored cardinality is the last element's raw cardinality, or the earlier one when the loop is empty |
| Mappers.CardinalityOfLastRequirement | src/main/java/de/openfabtwin/bimserver/checkingservice/model/Mappers.java:51-70 | the specification's cardinality is the raw cardinality of the last non-entity requirement, or unchanged when there is none |
| Mappers.MappedRulesShape | src/main/java/de/openfabtwin/bimserver/checkingservice/model/Mappers.java:27-75 | both facet lists are grouped, every facet well mapped, and the first applicability facet is the anchor |
| Mappers.AddVersions | src/main/java/de/openfabtwin/bimserver/checkingservice/model/Mappers.java:16-21 | the loop stores exactly the versions read, or throws IllegalArgumentException at the first unknown token |
| Mappers.AddApplicability | src/main/java/de/openfabtwin/bimserver/checkingservice/model/Mappers.java:34-38 | the loop appends exactly the mapped elements, in order |
| Mappers.AddRequirements | src/main/java/de/openfabtwin/bimserver/checkingservice/model/Mappers.java:45-49 | the loop appends exactly the mapped entities as requirements, each with a clean run entry |
| Mappers.AddCardinal | src/main/java/de/openfabtwin/bimserver/checkingservice/model/Mappers.java:51-70 | the loop appends exactly the mapped elements as requirements and stores the last element's raw cardinality |
| Mappers.MapApplicability | src/main/java/de/openfabtwin/bimserver/checkingservice/model/Mappers.java:28-39 | the applicability block stores the occurrence bounds and exactly the grouped applicability facets |
| Mappers.MapRequirements | src/main/java/de/openfabtwin/bimserver/checkingservice/model/Mappers.java:42-75 | the requirements block stores exactly the grouped requirement facets, the last cardinality and the description fallback |
| Mappers.MapAttributes | src/main/java/de/openfabtwin/bimserver/checkingservice/model/Mappers.java:15-25 | the name (when not blank), versions, identifier, description and instructions are stored; an unknown version throws IllegalArgumentException |
| Mappers.MapBlocks | src/main/java/de/openfabtwin/bimserver/checkingservice/model/Mappers.java:27-75 | the two blocks leave exactly the mapped rules, description and cardinality |
| Mappers.MapSpec | src/main/java/de/openfabtwin/bimserver/checkingservice/model/Mappers.java:11-78 | `mapSpec` succeeds iff every version token is known (else IllegalArgumentException), returning a fresh specification with exactly the mapped header, rules and a clean run state |
| Mappers.CleanlyGrows | src/main/java/de/openfabtwin/bimserver/checkingservice/model/Mappers.java:47 | adding a requirement to a clean specification leaves it clean |
| PropertyFacet.Make | src/main/java/de/openfabtwin/bimserver/checkingservice/model/facet/Property.java:27-45 | construction throws NullPointerException iff the property set or base name is missing; otherwise it keeps the fields, every template ends by naming the dataset, and the prohibition is the requirement with "shall" negated |
| PropertyFacet.AppendEnds | src/main/java/de/openfabtwin/bimserver/checkingservice/model/facet/Property.java:37-43 | a joined text starts with its first part and ends with its second |
| PropertyFacet.Roots | src/main/java/de/openfabtwin/bimserver/checkingservice/model/facet/Property.java:64-71 | candidates start from IfcObjectDefinition, and only that root is asked iff the upper-cased schema names IFC2X3 |
| PropertyFacet.CollectRootsSpec | src/main/java/de/openfabtwin/bimserver/checkingservice/model/facet/Property.java:55-62 | collection keeps earlier results, adds each declared root's instances and never repeats an oid |
| PropertyFacet.FilterSpecProperties | src/main/java/de/openfabtwin/bimserver/checkingservice/model/facet/Property.java:47-74 | `filter` yields, each once, exactly the instances of the root classes the schema declares |
| PropertyFacet.Ifc2x3OnlyObjectDefinitions | src/main/java/de/openfabtwin/bimserver/checkingservice/model/facet/Property.java:65-66 | under an IFC2X3 schema every candidate is an object definition |
| PropertyFacet.Filter | src/main/java/de/openfabtwin/bimserver/checkingservice/model/facet/Property.java:47-74 | the loop computes exactly the filter specification |
| PropertyFacet.NamedMatch | src/main/java/de/openfabtwin/bimserver/checkingservice/model/facet/Property.java:376-408 | a set is a hit iff it has a name and the name test (the pattern's `matches`) accepts that name |
| PropertyFacet.DirectHit | src/main/java/de/openfabtwin/bimserver/checkingservice/model/facet/Property.java:371-377 | a direct hit is an IfcPropertySet that an IfcRelDefinesByProperties relation points to |
| PropertyFacet.TypeHit | src/main/java/de/openfabtwin/bimserver/checkingservice/model/facet/Property.java:406-408 | a type's hit is one of its IfcPropertySets |
| PropertyFacet.FirstDirect | src/main/java/de/openfabtwin/bimserver/checkingservice/model/facet/Property.java:368-391 | a direct hit is an object of the model |
| PropertyFacet.MissesShift | src/main/java/de/openfabtwin/bimserver/checkingservice/model/facet/Property.java:370-390 | a miss in front extends the run of misses by one |
| PropertyFacet.FirstDirectFound | src/main/java/de/openfabtwin/bimserver/checkingservice/model/facet/Property.java:370-390 | a direct hit comes from a relation whose set hits, and every relation before it was read and missed |
| PropertyFacet.FirstDirectNone | src/main/java/de/openfabtwin/bimserver/checkingservice/model/facet/Property.java:370-390 | a direct search that finds nothing read every relation, and every one missed |
| PropertyFacet.FirstInType | src/main/java/de/openfabtwin/bimserver/checkingservice/model/facet/Property.java:405-421 | a type's hit is an IfcPropertySet |
| PropertyFacet.FirstTyped | src/main/java/de/openfabtwin/bimserver/checkingservice/model/facet/Property.java:394-423 | a hit through the types is an IfcPropertySet |
| PropertyFacet.SetBagSpec | src/main/java/de/openfabtwin/bimserver/checkingservice/model/facet/Property.java:378-388 | a found set's bag holds each named member's last value and, unless a member takes the key, the set itself under "_entity" |
| PropertyFacet.DirectSetWins | src/main/java/de/openfabtwin/bimserver/checkingservice/model/facet/Property.java:368-391 | a hit on the element's own relations is the result, whatever its types or materials hold |
| PropertyFacet.FirstDirectAt | src/main/java/de/openfabtwin/bimserver/checkingservice/model/facet/Property.java:370-390 | when relation i hits and all before it miss, the direct search returns relation i's hit |
| PropertyFacet.MaterialsDecideLast | src/main/java/de/openfabtwin/bimserver/checkingservice/model/facet/Property.java:425-428 | with no hit on the element or its types, the result is the material or profile bag named by the pattern's text |
| PropertyFacet.QuantitiesNotFoundDirectly | src/main/java/de/openfabtwin/bimserver/checkingservice/model/facet/Property.java:374 | an element quantity defined on the element is never the set found |
| PropertyFacet.Req | src/main/java/de/openfabtwin/bimserver/checkingservice/model/facet/Property.java:108-252 | the requirement checked is this facet's base name, value and data type under the released rules |
| PropertyFacet.SimpleNameOneContainer | src/main/java/de/openfabtwin/bimserver/checkingservice/model/facet/Property.java:81-83 | a simple set name yields at most one container, stored under that name |
| PropertyFacet.PatternSelectsBags | src/main/java/de/openfabtwin/bimserver/checkingservice/model/facet/Property.java:84-91 | a set pattern yields exactly the element's bags whose names it matches |
| PropertyFacet.MissingSetVerdict | src/main/java/de/openfabtwin/bimserver/checkingservice/model/facet/Property.java:93-98 | when the element lacks the named set, an optional facet passes, a required one fails with NOPSET, and a prohibited one passes tagged PROHIBITED (also lines 256-260) |
| PropertyFacet.FillBag | src/main/java/de/openfabtwin/bimserver/checkingservice/model/facet/Property.java:378-388 | the member loop builds exactly the found set's bag |
| PropertyFacet.FindDirect | src/main/java/de/openfabtwin/bimserver/checkingservice/model/facet/Property.java:368-391 | the loop finds exactly the first direct hit |
| PropertyFacet.FindInType | src/main/java/de/openfabtwin/bimserver/checkingservice/model/facet/Property.java:405-421 | the loop finds exactly the first hit among one type's sets |
| PropertyFacet.FindTyped | src/main/java/de/openfabtwin/bimserver/checkingservice/model/facet/Property.java:394-423 | the loop finds exactly the first hit through the types |
| PropertyFacet.GetPset | src/main/java/de/openfabtwin/bimserver/checkingservice/model/facet/Property.java:364-429 | computes exactly the getPset specification: element first, then types, then materials |
| PropertyFacet.Matches | src/main/java/de/openfabtwin/bimserver/checkingservice/model/facet/Property.java:76-261 | computes exactly the matches specification |
| PropertyBags.MemberValue | src/main/java/de/openfabtwin/bimserver/checkingservice/model/facet/Property.java:590-630 | a property member puts its extracted value, a quantity puts its number unless it has none, and an extended property needs a NominalValue feature to be read |
| PropertyBags.PutMembersSpec | src/main/java/de/openfabtwin/bimserver/checkingservice/model/facet/Property.java:587-591 | after the member loop each key holds the last value contributed under it, else its earlier value |
| PropertyBags.PutMembersFails | src/main/java/de/openfabtwin/bimserver/checkingservice/model/facet/Property.java:587-588 | a member list holding a null or non-object member makes the loop throw |
| PropertyBags.ContainerMerged | src/main/java/de/openfabtwin/bimserver/checkingservice/model/facet/Property.java:579-580 | an unnamed container leaves the bags unchanged |
| PropertyBags.ContainerMergedSpec | src/main/java/de/openfabtwin/bimserver/checkingservice/model/facet/Property.java:578-632 | a merge touches only the bag of the container's name: its "_entity" entry names this container (unless a member takes that key), each member name holds its last value, and other earlier entries survive |
| PropertyBags.Profiles | src/main/java/de/openfabtwin/bimserver/checkingservice/model/facet/Property.java:544-560 | only a material profile, a profile set or a profile set usage leads to profiles; anything else adds nothing |
| PropertyBags.MaterialIsSunk | src/main/java/de/openfabtwin/bimserver/checkingservice/model/facet/Property.java:502 | a material reached directly merges its own property containers |
| PropertyBags.UsageExpandsItsSet | src/main/java/de/openfabtwin/bimserver/checkingservice/model/facet/Property.java:515-518 | a layer set usage is expanded as the layer set it is for |
| PropertyBags.SelfUsageOverflowsStack | src/main/java/de/openfabtwin/bimserver/checkingservice/model/facet/Property.java:515-518 | a layer set usage that is its own layer set re-enters `forEachMaterialDefinition` on itself without end, which in Java ends in `StackOverflowError`; the model reports `Diverges` |
| PropertyBags.NoRelationsNoBags | src/main/java/de/openfabtwin/bimserver/checkingservice/model/facet/Property.java:432-481 | an element with no definitions, types or associations has no bags |
| PropertyBags.FillMembers | src/main/java/de/openfabtwin/bimserver/checkingservice/model/facet/Property.java:584-591 | the member loop computes exactly the member specification |
| PropertyBags.PsetCollector.constructor | src/main/java/de/openfabtwin/bimserver/checkingservice/model/facet/Property.java:433 | a new collector holds no bags |
| PropertyBags.PsetCollector.MergeContainer | src/main/java/de/openfabtwin/bimserver/checkingservice/model/facet/Property.java:578-632 | the merge leaves exactly the specified bags, or reports the failure |
| PropertyBags.PsetCollector.MergeDefinition | src/main/java/de/openfabtwin/bimserver/checkingservice/model/facet/Property.java:444-473 | property sets and element quantities merge; other definitions change nothing |
| PropertyBags.PsetCollector.MergeCarrier | src/main/java/de/openfabtwin/bimserver/checkingservice/model/facet/Property.java:563-575 | a carrier's property sets and extended properties merge in order |
| PropertyBags.PsetCollector.VisitMaterial | src/main/java/de/openfabtwin/bimserver/checkingservice/model/facet/Property.java:498-541 | the walk merges exactly what the material-definition specification reaches |
| PropertyBags.PsetCollector.VisitProfiles | src/main/java/de/openfabtwin/bimserver/checkingservice/model/facet/Property.java:544-560 | the walk merges exactly what the profile specification reaches |
| PropertyBags.PsetCollector.VisitAssociations | src/main/java/de/openfabtwin/bimserver/checkingservice/model/facet/Property.java:484-495 | each material association's definitions, then its profiles, are merged in order |
| PropertyBags.PsetCollector.MergeDefinedBy | src/main/java/de/openfabtwin/bimserver/checkingservice/model/facet/Property.java:436-451 | the loop merges exactly the element's own definitions |
| PropertyBags.PsetCollector.MergeTypeSets | src/main/java/de/openfabtwin/bimserver/checkingservice/model/facet/Property.java:467-474 | the loop merges exactly one type's containers |
| PropertyBags.PsetCollector.MergeTypedBy | src/main/java/de/openfabtwin/bimserver/checkingservice/model/facet/Property.java:453-476 | the loop merges exactly the containers of the element's types |
| PropertyBags.PsetCollector.CollectPsets | src/main/java/de/openfabtwin/bimserver/checkingservice/model/facet/Property.java:432-481 | `getPsets` leaves exactly the specified bags: definitions, then types, then materials and profiles |
| PropertyChecks.NameMatches | src/main/java/de/openfabtwin/bimserver/checkingservice/model/facet/Property.java:118 | asking a missing base name throws NullPointerException; otherwise it is the base name's own match |
| PropertyChecks.SelectMatchingSpec | src/main/java/de/openfabtwin/bimserver/checkingservice/model/facet/Property.java:114-123 | a pattern selection holds exactly the entries other than the container entry whose key the base name matches and whose value is non-null and not "" |
| PropertyChecks.ReleasedChoiceIsAValue | src/main/java/de/openfabtwin/bimserver/checkingservice/model/facet/Property.java:108-113 | with a simple base name the released facet chooses at most the one member of that name, and only when its value is non-empty and not a logical unknown |
| PropertyChecks.DraftEmptyMemberStops | src/main/java/de/openfabtwin/bimserver/checkingservice/model/facet/PropTemp.java:72-81 | with a simple base name the draft stops with NOVALUE on a missing or empty member before testing for a logical unknown |
| PropertyChecks.FirstObjectClass | src/main/java/de/openfabtwin/bimserver/checkingservice/model/facet/Property.java:198-205 | a bounded value's type is found iff one of its three bounds is an object |
| PropertyChecks.EnumeratedMismatchKeepsPass | src/main/java/de/openfabtwin/bimserver/checkingservice/model/facet/Property.java:169-182 | an enumerated member of another type records the DATATYPE reason but leaves the element passing |
| PropertyChecks.SingleValueMismatchFails | src/main/java/de/openfabtwin/bimserver/checkingservice/model/facet/Property.java:147-156 | a single value whose nominal type differs, ignoring case, fails with the DATATYPE reason naming both types |
| PropertyChecks.NoDataTypeNoMismatch | src/main/java/de/openfabtwin/bimserver/checkingservice/model/facet/Property.java:140-235 | with no required data type only an empty list or table stops the scan, with NOVALUE |
| PropertyChecks.ScanUnsupportedSpec | src/main/java/de/openfabtwin/bimserver/checkingservice/model/facet/Property.java:140-241 | a scan ending without a break is unsupported only if some checked member's class is unsupported |
| PropertyChecks.ReleasedCompareNeverHolds | src/main/java/de/openfabtwin/bimserver/checkingservice/model/facet/Property.java:263-282 | the released value comparison never accepts: its expected value is the rule value, never a string, and no stored value equals it |
| PropertyChecks.DraftListFirstDecides | src/main/java/de/openfabtwin/bimserver/checkingservice/model/facet/PropTemp.java:608-621 | in the draft a list is decided by its first element alone |
| PropertyChecks.DraftSimpleRejectsNonString | src/main/java/de/openfabtwin/bimserver/checkingservice/model/facet/PropTemp.java:607-616 | in the draft a simple expected value rejects every value that is neither a string nor a list |
| PropertyChecks.ReachedValueCheckFails | src/main/java/de/openfabtwin/bimserver/checkingservice/model/facet/Property.java:244-251 | when the released value check is reached it fails on the first chosen member |
| PropertyChecks.FilterPsetsSpec | src/main/java/de/openfabtwin/bimserver/checkingservice/model/facet/Property.java:86-89 | the kept containers are exactly those whose name the test (the pattern's `matches`) accepts, in their old order; the filter throws exactly when the test throws on some name; distinct names stay distinct |
| PropertyChecks.After | src/main/java/de/openfabtwin/bimserver/checkingservice/model/facet/Property.java:86-89 | with nothing kept yet, the filter result is unchanged |
| PropertyChecks.FilterStep | src/main/java/de/openfabtwin/bimserver/checkingservice/model/facet/Property.java:87-89 | one pass of the filtering loop keeps the container iff the test accepts its name, or propagates the match's exception |
| PropertyChecks.SelectPsets | src/main/java/de/openfabtwin/bimserver/checkingservice/model/facet/Property.java:85-90 | the loop computes exactly the name filter |
| PropertyChecks.KeptKeys | src/main/java/de/openfabtwin/bimserver/checkingservice/model/facet/Property.java:86-89 | filtering keeps only container names that were there |
| PropertyChecks.Final | src/main/java/de/openfabtwin/bimserver/checkingservice/model/facet/Property.java:256-260 | a prohibited facet inverts the pass and reports PROHIBITED; otherwise the pass and reason stand |
| PropertyChecks.NoContainer | src/main/java/de/openfabtwin/bimserver/checkingservice/model/facet/Property.java:93-98 | with no container an optional facet passes with no reason, a required one fails with NOPSET, a prohibited one passes with PROHIBITED |
| PropertyChecks.EmptySelectionPassesWithNoValue | src/main/java/de/openfabtwin/bimserver/checkingservice/model/facet/Property.java:126-130 | a first container with nothing chosen makes an optional facet pass, and a required one pass too, carrying NOVALUE |
| PropertyChecks.OnlyOptionalReturns | src/main/java/de/openfabtwin/bimserver/checkingservice/model/facet/Property.java:127 | only an optional facet returns from inside the container loop |
| PropertyChecks.StepNeverReturns | src/main/java/de/openfabtwin/bimserver/checkingservice/model/facet/Property.java:127 | only an optional facet's pass over one container returns early |
| PropertyChecks.ScanIgnoresCardinality | src/main/java/de/openfabtwin/bimserver/checkingservice/model/facet/Property.java:102-253 | apart from the optional early return the container loop does not depend on the cardinality |
| PropertyChecks.ProhibitedInverts | src/main/java/de/openfabtwin/bimserver/checkingservice/model/facet/Property.java:256-258 | a prohibited facet completes exactly where the required one does, with the opposite verdict and reason PROHIBITED |
| PropertyChecks.DraftCarrierCastFails | src/main/java/de/openfabtwin/bimserver/checkingservice/model/facet/PropTemp.java:102 | the draft stores its container as an oid, so any chosen member makes the container cast fail with ClassCastException |
| PropertyChecks.DraftSimpleMemberCastFails | src/main/java/de/openfabtwin/bimserver/checkingservice/model/facet/PropTemp.java:707 | for the same reason the draft's logical-unknown test fails with ClassCastException on any non-empty simple member |
| PropertyChecks.ScanDatatypes | src/main/java/de/openfabtwin/bimserver/checkingservice/model/facet/Property.java:140-235 | the loop computes exactly the data type scan |
| PropertyChecks.FindFailing | src/main/java/de/openfabtwin/bimserver/checkingservice/model/facet/Property.java:244-251 | the loop finds exactly the first chosen value the comparison rejects |
| PropertyChecks.Evaluate | src/main/java/de/openfabtwin/bimserver/checkingservice/model/facet/Property.java:93-260 | the labelled loop with its isPass and reason computes exactly the container verdict |
| PropertyChecks.StepOne | src/main/java/de/openfabtwin/bimserver/checkingservice/model/facet/Property.java:103-252 | one pass computes exactly the specified step |
| PropertyValues.CarrierKey | src/main/java/de/openfabtwin/bimserver/checkingservice/model/facet/Property.java:379 | the released facet records a bag's container under "_entity", the draft under "id" |
| PropertyValues.CarrierVal | src/main/java/de/openfabtwin/bimserver/checkingservice/model/facet/PropTemp.java:303 | the released facet records the container object itself; the draft records its oid as a Long number |
| PropertyValues.AsCarrier | src/main/java/de/openfabtwin/bimserver/checkingservice/model/facet/Property.java:133 | casting a bag's container entry to an object succeeds exactly on null or an object reference, yields an object exactly when the reference is live, and otherwise throws ClassCastException |
| PropertyValues.DraftCarrierCastFails | src/main/java/de/openfabtwin/bimserver/checkingservice/model/facet/PropTemp.java:102 | reading the draft's recorded container back as an object always throws ClassCastException |
| PropertyValues.CarrierRoundTrip | src/main/java/de/openfabtwin/bimserver/checkingservice/model/facet/Property.java:133 | reading the released facet's recorded container back yields exactly that container |
| PropertyValues.IsNonEmptyValue | src/main/java/de/openfabtwin/bimserver/checkingservice/model/facet/Property.java:695-711 | null is empty; a text or list is a value exactly when non-empty; any other value is a value exactly when its trimmed text is not UNKNOWN or UNDEFINED, ignoring case |
| PropertyValues.UnwrapIfcValue | src/main/java/de/openfabtwin/bimserver/checkingservice/model/facet/Property.java:688-693 | an IFC value object yields its wrappedValue when set, else its own text; never null; the draft always yields text |
| PropertyValues.UnwrapIfValue | src/main/java/de/openfabtwin/bimserver/checkingservice/model/facet/Property.java:683-686 | a live object is unwrapped as an IFC value; other values are kept by the released facet and become null in the draft; null stays null |
| PropertyValues.UnwrapEach | src/main/java/de/openfabtwin/bimserver/checkingservice/model/facet/Property.java:679 | each item of a raw list is unwrapped in place, keeping the list's length and order |
| PropertyValues.UnwrapList | src/main/java/de/openfabtwin/bimserver/checkingservice/model/facet/Property.java:676-681 | a list value whose items are the raw items unwrapped one by one; a null list gives the empty list |
| PropertyValues.BoundEntry | src/main/java/de/openfabtwin/bimserver/checkingservice/model/facet/Property.java:649-652 | a bound contributes at most one entry: none when null, the unwrapped object when it is a live object |
| PropertyValues.ExtractPropertyValue | src/main/java/de/openfabtwin/bimserver/checkingservice/model/facet/Property.java:635-663 | a single value yields its unwrapped nominal value or null; list and enumerated values the unwrapped list; a table its defining then defined values; a bounded value at most three bounds; any other class null |
| PropertyValues.UnwrapTypeName | src/main/java/de/openfabtwin/bimserver/checkingservice/model/facet/Property.java:667-673 | a type name exists exactly for non-null values; a live object is named by its class |
| PropertyValues.FourthFeature | src/main/java/de/openfabtwin/bimserver/checkingservice/model/facet/Property.java:160-161 | a class with at most three features has no feature number 3, so the value is null |
| PropertyValues.QuantityNumber | src/main/java/de/openfabtwin/bimserver/checkingservice/model/facet/Property.java:158-162 | a quantity's number is the first non-null of the six value features when one is set |
| PropertyValues.InferQuantityDataType | src/main/java/de/openfabtwin/bimserver/checkingservice/model/facet/Property.java:284-294 | a length quantity is a length measure; no data type is inferred only when the value is not a Java number |
| PropertyValues.NonQuantityTypedByNumber | src/main/java/de/openfabtwin/bimserver/checkingservice/model/facet/Property.java:284-294 | a class outside the quantity classes is typed by its value's number class, or not at all |
| PropertyValues.WeightIsMass | src/main/java/de/openfabtwin/bimserver/checkingservice/model/facet/Property.java:284-294 | a weight quantity is inferred as a mass measure: no earlier prefix catches it |
| PropertyValues.PseudoProperties | src/main/java/de/openfabtwin/bimserver/checkingservice/model/facet/Property.java:345-354 | a predefined set lists at most one pseudo property per feature, and each is null |
| PropertyValues.GetProperties | src/main/java/de/openfabtwin/bimserver/checkingservice/model/facet/Property.java:335-357 | listing a container either succeeds or throws NullPointerException; a property set lists its HasProperties and throws when that list is null; other containers list only nulls |
| PropertyValues.LogicalUnknownIn | src/main/java/de/openfabtwin/bimserver/checkingservice/model/facet/Property.java:308-330 | a logical unknown is found only through a live single-value property of the asked name in the container |
| PropertyValues.IsLogicalUnknown | src/main/java/de/openfabtwin/bimserver/checkingservice/model/facet/Property.java:296-332 | the released facet treats an enum or text reading UNKNOWN or UNDEFINED as unknown; a missing container never throws; any other unknown verdict needs a recorded container |
| PropertyValues.DatumsOf | src/main/java/de/openfabtwin/bimserver/checkingservice/model/facet/Property.java:248 | a stored list of values keeps one stored datum per item |
| PropertyValues.DatumRendersAsText | src/main/java/de/openfabtwin/bimserver/checkingservice/model/facet/Property.java:248 | a stored value renders as String.valueOf renders the value itself |
| PropertyValues.DatumsRenderAsText | src/main/java/de/openfabtwin/bimserver/checkingservice/model/facet/Property.java:248 | a stored list's items render as String.valueOf renders them, joined by ", " |
| PropTempFacet.Filter | src/main/java/de/openfabtwin/bimserver/checkingservice/model/facet/PropTemp.java:35-38 | the draft facet selects no candidates at all |
| PropTempFacet.Req | src/main/java/de/openfabtwin/bimserver/checkingservice/model/facet/PropTemp.java:25-33 | the draft's requirement carries the facet's base name, value and data type, checked by the draft's readings |
| PropTempFacet.BaseMembers | src/main/java/de/openfabtwin/bimserver/checkingservice/model/facet/PropTemp.java:316-331 | a property set lists its HasProperties, an element quantity its Quantities, other non-material containers nothing; a null list lists nothing |
| PropTempFacet.PredefEntriesSpec | src/main/java/de/openfabtwin/bimserver/checkingservice/model/facet/PropTemp.java:333-344 | a predefined set's bag gains the String.valueOf text of exactly the features whose name the test (the base name's `matches`) accepts and keeps every other entry |
| PropTempFacet.ExtractPset | src/main/java/de/openfabtwin/bimserver/checkingservice/model/facet/PropTemp.java:276-299 | at most one bag comes out, named by the set's Name, which the property set pattern matches, and only for a property set, element quantity or predefined property set |
| PropTempFacet.DraftBagCarrierIsNumber | src/main/java/de/openfabtwin/bimserver/checkingservice/model/facet/PropTemp.java:301-313 | a matched property set's bag records the set under "id" as a number, so reading the carrier back as an object throws ClassCastException |
| PropTempFacet.NoIdContribution | src/main/java/de/openfabtwin/bimserver/checkingservice/model/facet/PropTemp.java:306-310 | when no member is named "id", the member loop never touches the "id" entry |
| PropTempFacet.CastAll | src/main/java/de/openfabtwin/bimserver/checkingservice/model/facet/PropTemp.java:249 | iterating a type's property sets succeeds exactly when every item is null or an object, and otherwise throws ClassCastException |
| PropTempFacet.DirectCollectedKeeps | src/main/java/de/openfabtwin/bimserver/checkingservice/model/facet/PropTemp.java:263-265 | a property set name already collected keeps its first bag through the rest of the direct loop |
| PropTempFacet.DraftIgnoresDefinedSets | src/main/java/de/openfabtwin/bimserver/checkingservice/model/facet/PropTemp.java:232-274 | once the type and direct loops get through, the answer is only the material or profile bag named by the property set |
| PropTempFacet.NoPropertySetNoContainer | src/main/java/de/openfabtwin/bimserver/checkingservice/model/facet/PropTemp.java:42-64 | without a property set an optional facet passes, a required one fails with NOPSET and a prohibited one passes with PROHIBITED |
| PropTempFacet.PatternSelectsBags | src/main/java/de/openfabtwin/bimserver/checkingservice/model/facet/PropTemp.java:49-56 | a property set pattern keeps exactly the element's bags whose name it matches |
| PropTempFacet.FillBaseBag | src/main/java/de/openfabtwin/bimserver/checkingservice/model/facet/PropTemp.java:301-313 | the member loop builds the bag extractBaseValueMap describes, throwing where it throws |
| PropTempFacet.FillPredefBag | src/main/java/de/openfabtwin/bimserver/checkingservice/model/facet/PropTemp.java:333-344 | the feature loop builds the predefined-set bag described by PredefEntriesSpec |
| PropTempFacet.ExtractOne | src/main/java/de/openfabtwin/bimserver/checkingservice/model/facet/PropTemp.java:276-299 | the extraction equals ExtractPset, so at most one bag named by the set's Name |
| PropTempFacet.CastTypeSets | src/main/java/de/openfabtwin/bimserver/checkingservice/model/facet/PropTemp.java:238-253 | the type loop throws exactly as reading each type relation and casting each listed set throws, and keeps nothing |
| PropTempFacet.CollectDirect | src/main/java/de/openfabtwin/bimserver/checkingservice/model/facet/PropTemp.java:255-268 | the direct loop collects each named defined set once, first bag first |
| PropTempFacet.GetPset | src/main/java/de/openfabtwin/bimserver/checkingservice/model/facet/PropTemp.java:232-274 | getPset answers with what the loops throw, else the material or profile bag named by the property set |
| PropTempFacet.Matches | src/main/java/de/openfabtwin/bimserver/checkingservice/model/facet/PropTemp.java:40-229 | the draft's verdict is the shared requirement check over the containers the property set selects |
| IfcModel.AsObject | src/main/java/de/openfabtwin/bimserver/checkingservice/model/facet/Property.java:370 | an element of a relation list can be used exactly when it is a live object; null throws NullPointerException and a non-object fails its cast |
| IfcModel.EGet | src/main/java/de/openfabtwin/bimserver/checkingservice/model/facet/Attribute.java:65 | reading a feature succeeds exactly when the class has it and yields its value; an absent feature throws NullPointerException |
| IfcModel.GetString | src/main/java/de/openfabtwin/bimserver/checkingservice/model/facet/Property.java:376 | a name is read exactly when the feature holds a text |
| IfcModel.GetList | src/main/java/de/openfabtwin/bimserver/checkingservice/model/facet/Property.java:368 | a list is read exactly when the feature holds a list |
| IfcModel.GetObject | src/main/java/de/openfabtwin/bimserver/checkingservice/model/facet/Property.java:373 | a reference is read exactly when the feature holds a live object |
| IfcModel.TryGet | src/main/java/de/openfabtwin/bimserver/checkingservice/model/facet/Property.java:690 | the first listed feature that is set wins; null means none of them is set |
| IfcModel.AllWithSubTypes | src/main/java/de/openfabtwin/bimserver/checkingservice/model/facet/Property.java:58 | the instances listed are exactly the model's objects of the class or one of its subclasses |
| IfcModel.AllOf | src/main/java/de/openfabtwin/bimserver/checkingservice/model/facet/Classification.java:51 | the instances listed are exactly the model's objects whose class is exactly the one asked |
| IfcModel.AddUnseenSpec | src/main/java/de/openfabtwin/bimserver/checkingservice/model/facet/Property.java:58-59 | collecting through a seen set keeps what was collected, adds exactly the new ids and never repeats one |
| IfcModel.ListTextBracketed | src/main/java/de/openfabtwin/bimserver/checkingservice/model/facet/PropTemp.java:340 | String.valueOf of a list is bracketed |
| IfcModel.SingletonListText | src/main/java/de/openfabtwin/bimserver/checkingservice/model/facet/PropTemp.java:340 | String.valueOf of a one-element list is its element's text in brackets |
| OrderedMaps.Keys | src/main/java/de/openfabtwin/bimserver/checkingservice/model/facet/Property.java:86-88 | a map has one key per entry, in insertion order |
| OrderedMaps.Lookup | src/main/java/de/openfabtwin/bimserver/checkingservice/model/facet/Property.java:133 | get finds a value exactly when the key is present |
| OrderedMaps.PutIfAbsent | src/main/java/de/openfabtwin/bimserver/checkingservice/model/facet/PropTemp.java:264 | putIfAbsent on a present key leaves the map unchanged |
| OrderedMaps.PutLookup | src/main/java/de/openfabtwin/bimserver/checkingservice/model/facet/Property.java:385 | after put the key holds the new value and every other key its old one |
| OrderedMaps.PutKeys | src/main/java/de/openfabtwin/bimserver/checkingservice/model/facet/Property.java:385 | put keeps a present key in its place and appends a new key last |
| OrderedMaps.PutUnique | src/main/java/de/openfabtwin/bimserver/checkingservice/model/facet/Property.java:385 | put never makes a key occur twice |
| OrderedMaps.PutIfAbsentKeeps | src/main/java/de/openfabtwin/bimserver/checkingservice/model/facet/PropTemp.java:264 | putIfAbsent never changes a present value and changes no other key |

## Left out

- Fetching, schema validation and unmarshalling of IDS documents, and the BIMserver plugin plumbing, are I/O and host glue. The XML document arrives already parsed, as the `*Xml` datatypes of `mappers.dfy`.
- Logging is left out. The one log call whose argument throws (`Specification.java:102`, the status unboxed in the message) is modelled as that exception.
- The EMF and BIMserver reflection (`eClass`, `eGet`, `getEStructuralFeature`, `getAll`, `getAllWithSubTypes`) is read through the object graph of `ifc_model.dfy`. A dangling reference reads as null.
- `getString`, `getList`, `getObject`, `getIdEObject` and `tryGet` are not part of this model's sources. They get the reading their names and call sites imply: the feature's text, list or live object, else null. `tryGet` gives the first non-null of the named features.
- `cardinalityFromString`, `setCardinality`, `reset_status` and `setApplicable_entities` are not part of this model's sources. Facets take the `Cardinality` that `cardinalityFromString` yields as an argument, and the mapper keeps the cardinality text unconverted. `setCardinality` stores its argument. `reset_status` restores the initial run state. `setApplicable_entities` replaces the applicable list.
- Regular expressions (`java.util.regex`) in restriction patterns are an uninterpreted parameter `rx`. The two fixed patterns of `SimpleValue` are written out character by character.
- The parameter `rx` is a total function, so it never throws. `Pattern.compile` (`RestrictionValue.java:32`) throws `PatternSyntaxException` on a malformed pattern; that exception is not modelled, and `RestrictionValues.Matches` has no outcome for it.
- Floating point: the 1e-6 tolerance comparison of the released `compareValues` is unreachable, because its expected value is never a `String`, so it is not modelled. The double helpers of the draft are left out for the same reason.
- `Facet.to_string` is not defined in `Facet.java`. The report takes it as a parameter `Describe`, which maps a facet kind and declaration to its line of text.
- `Material` is a stub: an empty discovery, and `matches` returning false. It appears only as a facet declaration that the mapper builds and orders.
- `Attribute.matches` and `Entity.filter` return null in the source. They are modelled as the null they return (`AttributeFacet.MatchesStub`, `EntityFacet.Filter`).
- The files are snapshots from different revisions whose signatures disagree. For example, `Facet.filter(model, min, max)` differs from `Property.filter(model)`, and `matches(model, element)` differs from `matches(element)`. Each facet is modelled on its own signature. The orchestration takes facets as abstract `filter` and `matches` functions.
- `Mappers.mapSpec`: when an IFC version token is unknown, the exception leaves a partly filled specification unreachable. The model returns only the exception.
- `Mappers` passes strings where the `PartOf` constructor takes `Value`s. The mapping keeps the strings (`FacetDecls.PartOfDecl`), and the PartOf facet is modelled on its own `Value` fields.
- The mapper builds a `RestrictionValue` from the enumeration and pattern lists. It uses a two-argument constructor that `RestrictionValue.java` does not have. The model keeps the two lists as given (`FacetDecls.MappedValue`) and does not turn them into a `RestrictionValues.Restriction`.
- The base of an XML restriction is not read by the mapper, so no mapped value carries one.
- `setMinMaxOccurs(null)` is not modelled. Every caller passes a cardinality that `cardinalityFromString` produced, which is never null.
- `RestrictionValues.XsdBaseFromString` takes a non-null text. Its only caller passes the XML base attribute, which is a string.
- Reason tags are compared with `==` on interned literals in the source. The model compares them as strings.
- Graph walks that the source bounds only by the graph itself (the PartOf ancestor walks, material flattening) carry a visited set. A repeat is exactly the case in which the next node, which depends only on the current one, comes back again and again, and the model yields `Diverges`. For the PartOf walks, which are loops, this means the loop never ends. Material flattening is a recursion, so in Java it ends in a `StackOverflowError` instead. The model does not tell the two apart, and it does not model the stack depth at which Java gives up.
- The released `compareValues` and the generic and aggregation `PartOf` walks compare a `String` with a `Value` object. Such a comparison is always false. The model keeps that behaviour (`PropertyChecks.ReleasedCompareNeverHolds`, `PartOfFacet.GenericWalkNeverPasses`), because nothing in the source says which comparison was intended.
- The nesting walk re-reads the parent of the element, not of the current node (`PartOfFacet.NestingWalkStaysPut`). It is kept as written, for the same reason.
- `createPseudoProperty` returns null in the source. The released facet's pseudo properties of a predefined property set are therefore nulls (`PropertyValues.PseudoProperties`).
- `PropertyValues.ExtractPropertyValue`: for a bounded value, the contract states only that the result is a list of at most three entries. The entry for each bound is stated by `PropertyValues.BoundEntry`.
- `PropertyValues.IsLogicalUnknown`: the contract states the released facet's own-value shortcut, that it never throws without a recorded container, and that any other unknown verdict needs a container. The verdict of the container scan is stated by `PropertyValues.LogicalUnknownIn`, which gives only its "found" direction.
- `PropertyValues.InferQuantityDataType`: the contract names only the length measure. The other prefixes are covered by `PropertyValues.WeightIsMass` and `PropertyValues.NonQuantityTypedByNumber`.
- JavaStrings.Upper: models `toUpperCase` for ASCII letters only, and ignores the locale. Java also maps other letters (é to É) and can lengthen a text (ß to SS), so "keeps the length" does not hold of Java in general. It is applied mostly to IFC class, schema and data-type names, which are ASCII. On other text the model can differ from Java. For example, Java upper-cases the property value "undefıned" (with a dotless ı) to "UNDEFINED", and the model does not.
- JavaStrings.EqualsIgnoreCase: compares after the ASCII upper-casing above. Java's `equalsIgnoreCase` also folds non-ASCII letters (for example the dotless ı against I), which the model does not.
- Decimals.Parse: accepts the ASCII digits 0-9 only. `new BigDecimal(String)` also accepts other Unicode decimal digits (for example Arabic-Indic digits), which the model rejects as unparseable.
- RestrictionValues.Matches: uses the corrected enumeration test `RestrictionValues.EnumMatches` (see Findings). The as-written behaviour is `RestrictionValues.MatchesAsWritten`. The two differ only for an INTEGER base with a non-empty enumeration (`RestrictionValues.MatchesTenAgainstTen`).
- Results.Message: uses the corrected classification message `Results.ClassificationMessage` (see Findings). The as-written behaviour is `Results.MessageAsWritten`. The two differ only for a classification reason tagged PROHIBITED (`Results.ProhibitedClassificationResultMessage`).
- Java strings hold at most `Integer.MAX_VALUE` characters, while the model's strings are unbounded. A longer digit string could strip below the `int` range, so `Decimals.LiteralStripsInRange` and `RestrictionValues.IntegerEntryMatchesItself` take that length bound as a hypothesis.
- Java `int` overflow in the report's division is not modelled. The counts are list sizes far below 2^31.

## Findings

| source | as written | input that shows it | evidently intended | confidence | as-written member | corrected member |
|---|---|---|---|---|---|---|
| src/main/java/de/openfabtwin/bimserver/checkingservice/model/RestrictionValue.java:76 | an integer enumeration entry counts only if `stripTrailingZeros().scale() == 0` | base INTEGER, enumeration ["10"], candidate "10": "10" strips to 1E+1 with scale -1, so the entry is skipped and the candidate rejected | a whole-number entry (scale ≤ 0 after stripping) equal to the candidate matches | not executed | RestrictionValues.EnumMatchesAsWritten | RestrictionValues.EnumMatches |
| src/main/java/de/openfabtwin/bimserver/checkingservice/model/result/ClassificationResult.java:16 | the prohibition message is chosen for the tag "PROHIBITED " with a trailing space | a classification result with reason type "PROHIBITED" renders "" | the tag "PROHIBITED" renders "The classification should not have met the requirement" | not executed | Results.ClassificationMessageAsWritten | Results.ClassificationMessage |
