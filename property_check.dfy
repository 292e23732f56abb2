/**
 * The decision core both property facets' `matches` share once the candidate containers are
 * known: member selection, the data type scan, the value check, and how the labelled loop over
 * containers ends in a verdict.
 */
module PropertyChecks {
  import opened Wrappers
  import opened JavaStrings
  import opened IfcModel
  import opened Results
  import opened OrderedMaps
  import opened Values
  import RestrictionValues
  import opened Facets
  import opened PropertyValues
  import opened PropertyBags

  /** What `matches` reads from the facet, apart from its cardinality. */
  datatype Requirement = Requirement(
    variant: Variant,
    baseName: Option<Value>,
    value: Option<Value>,
    dataType: Option<string>,
    rx: RestrictionValues.Regex)

  // ---------------------------------------------------------------- member selection

  /** `baseName.matches(k)`: a missing base name cannot be asked. */
  function NameMatches(baseName: Option<Value>, k: string, rx: RestrictionValues.Regex): (r: Outcome<bool>)
    ensures baseName.None? ==> r == Throws(NullPointer)
    ensures baseName.Some? ==> r == Matches(baseName.value, Some(k), rx)
  {
    if baseName.None? then Throws(NullPointer) else Matches(baseName.value, Some(k), rx)
  }

  /** `baseName.matches(k)`, as a test on member names. */
  function NameTest(baseName: Option<Value>, rx: RestrictionValues.Regex): TextTest {
    k => NameMatches(baseName, k, rx)
  }

  /** `v != null && !"".equals(v)`. */
  predicate Present(m: Model, v: Val) {
    !IsNull(m, v) && v != Str("")
  }

  /** The members a non-simple base name selects, in bag order; the container entry is skipped. */
  function SelectMatching(req: Requirement, m: Model, entries: Bag): Outcome<Bag>
    decreases entries
  {
    if entries == [] then Ok([])
    else if entries[0].0 == CarrierKey(req.variant) then SelectMatching(req, m, entries[1..])
    else
      var hit :- NameMatches(req.baseName, entries[0].0, req.rx);
      var rest :- SelectMatching(req, m, entries[1..]);
      Ok(if hit && Present(m, entries[0].1) then [entries[0]] + rest else rest)
  }

  /**
   * A selection holds exactly the entries, other than the container entry, whose key the base
   * name matches and whose value is present.
   */
  lemma {:induction false} SelectMatchingSpec(req: Requirement, m: Model, entries: Bag)
    ensures var r := SelectMatching(req, m, entries);
      r.Ok? ==> forall e :: e in r.value <==>
        (e in entries && e.0 != CarrierKey(req.variant) && NameMatches(req.baseName, e.0, req.rx) == Ok(true) && Present(m, e.1))
    decreases entries
  {
    if entries != [] {
      SelectMatchingSpec(req, m, entries[1..]);
      assert forall e :: e in entries <==> e == entries[0] || e in entries[1..] by {
        assert entries == [entries[0]] + entries[1..];
      }
      if entries[0].0 != CarrierKey(req.variant) {
        var hit := NameMatches(req.baseName, entries[0].0, req.rx);
        if hit.Ok? {
          var rest := SelectMatching(req, m, entries[1..]);
          if rest.Ok? {
            assert forall e :: e in [entries[0]] + rest.value <==> e == entries[0] || e in rest.value;
          }
        }
      }
    }
  }

  /** The members chosen for checking; the draft instead stops at once on an empty member. */
  datatype Choice = Chosen(chosen: Bag) | EmptyMember

  /**
   * A simple base name chooses its one member when that member is a value and not a logical
   * unknown; any other base name selects by matching.
   */
  function Choose(req: Requirement, m: Model, bag: Bag): Outcome<Choice> {
    if req.baseName.Some? && req.baseName.value.Simple? then
      var bn := Extract(req.baseName.value);
      var propVal := Lookup(bag, bn).GetOr(Null);
      if req.variant == PropertyCode then
        var unknown :- IsLogicalUnknown(PropertyCode, m, bag, bn, propVal);
        Ok(Chosen(if !unknown && IsNonEmptyValue(m, propVal) then [(bn, propVal)] else []))
      else if !IsNonEmptyValue(m, propVal) then Ok(EmptyMember)
      else
        var unknown :- IsLogicalUnknown(PropTempCode, m, bag, bn, propVal);
        Ok(Chosen(if unknown then [] else [(bn, propVal)]))
    else
      var selected :- SelectMatching(req, m, bag);
      Ok(Chosen(selected))
  }

  /** The released facet never chooses an empty member, nor one that reads as a logical unknown. */
  lemma ReleasedChoiceIsAValue(req: Requirement, m: Model, bag: Bag)
    requires req.variant == PropertyCode && req.baseName.Some? && req.baseName.value.Simple?
    ensures var c := Choose(req, m, bag);
      c.Ok? ==> (c.value.Chosen? && |c.value.chosen| <= 1
        && (c.value.chosen != [] ==> (IsNonEmptyValue(m, c.value.chosen[0].1)
          && c.value.chosen[0] == (Extract(req.baseName.value), Lookup(bag, Extract(req.baseName.value)).value)
          && IsLogicalUnknown(PropertyCode, m, bag, Extract(req.baseName.value), c.value.chosen[0].1) == Ok(false))))
  {}

  /** The draft stops on a missing or empty member before it looks for a logical unknown. */
  lemma DraftEmptyMemberStops(req: Requirement, m: Model, bag: Bag)
    requires req.variant == PropTempCode && req.baseName.Some? && req.baseName.value.Simple?
    requires !IsNonEmptyValue(m, Lookup(bag, Extract(req.baseName.value)).GetOr(Null))
    ensures Choose(req, m, bag) == Ok(EmptyMember)
  {}

  // ---------------------------------------------------------------- data type scan

  /** How one checked member ends the scan: fine, of an unsupported class, or breaking out. */
  datatype Check = Fine | Unsupported | Break(isPass: bool, reason: map<string, Datum>)

  function DatatypeReason(actual: string, dataType: string): map<string, Datum> {
    map["type" := DText("DATATYPE"), "actual" := DText(actual), "dataType" := DText(dataType)]
  }

  /** Both types are known and differ, ignoring case. */
  predicate Differs(dataType: Option<string>, actual: Option<string>) {
    dataType.Some? && actual.Some? && !EqualsIgnoreCase(dataType.value, actual.value)
  }

  /** A type comparison; `clears` says whether a mismatch also clears `isPass`. */
  function TypeCheck(dataType: Option<string>, actual: Option<string>, clears: bool): Check {
    if Differs(dataType, actual) then Break(!clears, DatatypeReason(actual.value, dataType.value)) else Fine
  }

  const NoValueFailure := Break(false, Tagged("NOVALUE"))

  /** The class of the first value that is an object, if any. */
  function FirstObjectClass(m: Model, vals: seq<Val>): (r: Option<string>)
    ensures r.Some? <==> exists i :: 0 <= i < |vals| && Live(m, vals[i])
  {
    if vals == [] then None
    else if Live(m, vals[0]) then Some(ClassOf(m, vals[0].oid))
    else
      var r := FirstObjectClass(m, vals[1..]);
      assert (exists i :: 0 <= i < |vals| && Live(m, vals[i])) <==> Live(m, vals[0]) || exists i :: 0 <= i < |vals[1..]| && Live(m, vals[1..][i]) by {
        if exists i :: 0 <= i < |vals| && Live(m, vals[i]) {
          var i :| 0 <= i < |vals| && Live(m, vals[i]);
          if i > 0 {
            assert vals[1..][i - 1] == vals[i];
          }
        }
      }
      r
  }

  /** The data type step for one chosen member, by the member's class. */
  function CheckMember(dataType: Option<string>, m: Model, o: Oid): Outcome<Check>
    requires o in m.objects
  {
    var t := ClassOf(m, o);
    if t == "IfcPropertySingleValue" then
      var nominal := GetObject(m, o, "NominalValue");
      Ok(TypeCheck(dataType, if nominal.Some? then Some(ClassOf(m, nominal.value)) else None, true))
    else if StartsWith(t, "IfcQuantity") || t == "IfcPhysicalSimpleQuantity" then
      Ok(TypeCheck(dataType, InferQuantityDataType(t, QuantityNumber(m, o)), true))
    else if t == "IfcPropertyEnumeratedValue" then
      var vals := GetList(m, o, "EnumerationValues");
      if vals.None? || vals.value == [] then Ok(NoValueFailure)
      else Ok(TypeCheck(dataType, UnwrapTypeName(m, vals.value[0]), false))
    else if t == "IfcPropertyListValue" then
      var vals := GetList(m, o, "ListValues");
      if vals.None? || vals.value == [] then Ok(NoValueFailure)
      else Ok(TypeCheck(dataType, UnwrapTypeName(m, vals.value[0]), true))
    else if t == "IfcPropertyBoundedValue" then
      var upper :- EGet(m, o, "UpperBoundValue");
      var lower :- EGet(m, o, "LowerBoundValue");
      var setPoint :- EGet(m, o, "SetPointValue");
      Ok(TypeCheck(dataType, FirstObjectClass(m, [upper, lower, setPoint]), true))
    else if t == "IfcPropertyTableValue" then
      var defining := GetList(m, o, "DefiningValues").GetOr([]);
      var defined := GetList(m, o, "DefinedValues").GetOr([]);
      if defining == [] && defined == [] then Ok(NoValueFailure)
      else Ok(TypeCheck(dataType, UnwrapTypeName(m, if defining != [] then defining[0] else defined[0]), true))
    else Ok(Unsupported)
  }

  /** An enumerated member of another type sets the DATATYPE reason but leaves `isPass` alone. */
  lemma EnumeratedMismatchKeepsPass(dataType: Option<string>, m: Model, o: Oid)
    requires o in m.objects && ClassOf(m, o) == "IfcPropertyEnumeratedValue"
    requires GetList(m, o, "EnumerationValues").Some? && GetList(m, o, "EnumerationValues").value != []
    requires Differs(dataType, UnwrapTypeName(m, GetList(m, o, "EnumerationValues").value[0]))
    ensures var c := CheckMember(dataType, m, o);
      c.Ok? && c.value.Break? && c.value.isPass && TagIs(c.value.reason, "DATATYPE")
  {
    var t := ClassOf(m, o);
    assert t[..11][3] != "IfcQuantity"[3];
  }

  /** A single value typed differently from the requirement fails with both types reported. */
  lemma SingleValueMismatchFails(dataType: string, m: Model, o: Oid)
    requires o in m.objects && ClassOf(m, o) == "IfcPropertySingleValue"
    requires GetObject(m, o, "NominalValue").Some?
    requires !EqualsIgnoreCase(dataType, ClassOf(m, GetObject(m, o, "NominalValue").value))
    ensures CheckMember(Some(dataType), m, o)
      == Ok(Break(false, DatatypeReason(ClassOf(m, GetObject(m, o, "NominalValue").value), dataType)))
  {}

  /** With no required data type, only empty lists and unsupported classes stop the scan. */
  lemma NoDataTypeNoMismatch(m: Model, o: Oid)
    requires o in m.objects
    ensures var c := CheckMember(None, m, o);
      c.Ok? && c.value.Break? ==> c.value == NoValueFailure
  {}

  /**
   * The scan over the container's members: members that are not objects, unnamed or not chosen
   * are skipped; a break ends it at once, an unsupported class only marks it unsupported.
   */
  function DatatypeScan(dataType: Option<string>, m: Model, chosen: Bag, props: seq<Val>, supported: bool): Outcome<Check>
    decreases props
  {
    if props == [] then Ok(if supported then Fine else Unsupported)
    else if !Live(m, props[0]) then DatatypeScan(dataType, m, chosen, props[1..], supported)
    else
      var o := props[0].oid;
      var name := GetString(m, o, "Name");
      if name.None? || name.value !in Keys(chosen) then DatatypeScan(dataType, m, chosen, props[1..], supported)
      else
        var c :- CheckMember(dataType, m, o);
        if c.Break? then Ok(c)
        else DatatypeScan(dataType, m, chosen, props[1..], supported && c.Fine?)
  }

  /** A scan that ends without a break is unsupported exactly when some checked member was. */
  lemma {:induction false} ScanUnsupportedSpec(dataType: Option<string>, m: Model, chosen: Bag, props: seq<Val>, supported: bool)
    ensures var r := DatatypeScan(dataType, m, chosen, props, supported);
      r == Ok(Unsupported) ==> !supported || exists i :: (0 <= i < |props| && Live(m, props[i])
        && GetString(m, props[i].oid, "Name").Some? && GetString(m, props[i].oid, "Name").value in Keys(chosen)
        && CheckMember(dataType, m, props[i].oid) == Ok(Unsupported))
    decreases props
  {
    if props != [] {
      var next := supported;
      if Live(m, props[0]) {
        var o := props[0].oid;
        var name := GetString(m, o, "Name");
        if !(name.None? || name.value !in Keys(chosen)) {
          var c := CheckMember(dataType, m, o);
          if c.Ok? && !c.value.Break? {
            next := supported && c.value.Fine?;
          }
        }
      }
      ScanUnsupportedSpec(dataType, m, chosen, props[1..], next);
      var r := DatatypeScan(dataType, m, chosen, props, supported);
      if r == Ok(Unsupported) && supported && next {
        var i :| 0 <= i < |props[1..]| && Live(m, props[1..][i])
          && GetString(m, props[1..][i].oid, "Name").Some? && GetString(m, props[1..][i].oid, "Name").value in Keys(chosen)
          && CheckMember(dataType, m, props[1..][i].oid) == Ok(Unsupported);
        assert props[1..][i] == props[i + 1];
      }
    }
  }

  // ---------------------------------------------------------------- value check

  /**
   * The released `compareValues`: its expected value is the rule value itself, so the string
   * branch is never taken and each comparison is `Objects.equals` of a stored value with a rule
   * value, which no stored value is; a list passes if any element does.
   */
  function ReleasedCompare(m: Model, actual: Val): bool
    decreases actual
  {
    if IsNull(m, actual) then false
    else if actual.List? then exists i :: 0 <= i < |actual.items| && ReleasedCompare(m, actual.items[i])
    else false
  }

  /** So the released value check never accepts anything. */
  lemma {:induction false} ReleasedCompareNeverHolds(m: Model, actual: Val)
    ensures !ReleasedCompare(m, actual)
    decreases actual
  {
    if actual.List? {
      forall i | 0 <= i < |actual.items|
        ensures !ReleasedCompare(m, actual.items[i])
      {
        ReleasedCompareNeverHolds(m, actual.items[i]);
      }
    }
  }

  /**
   * The draft `compareValues`: a list is decided by its first element's text; a simple value
   * compares only with a string; a restriction compares with the value's text.
   */
  function DraftCompare(m: Model, expected: Value, actual: Val, rx: RestrictionValues.Regex): Outcome<bool> {
    if IsNull(m, actual) then Ok(false)
    else if actual.List? then
      if actual.items == [] then Ok(false) else Matches(expected, Some(ToText(m, actual.items[0])), rx)
    else if expected.Simple? then
      if actual.Str? then Matches(expected, Some(actual.s), rx) else Ok(false)
    else Matches(expected, Some(ToText(m, actual)), rx)
  }

  /** Only a list's first element counts in the draft, whatever follows it. */
  lemma DraftListFirstDecides(m: Model, expected: Value, x: Val, rest: seq<Val>, rx: RestrictionValues.Regex)
    ensures DraftCompare(m, expected, List([x] + rest), rx) == Matches(expected, Some(ToText(m, x)), rx)
  {}

  /** In the draft a simple value rejects any non-string, non-list value outright. */
  lemma DraftSimpleRejectsNonString(m: Model, t: Option<string>, actual: Val, rx: RestrictionValues.Regex)
    requires !actual.Str? && !actual.List?
    ensures DraftCompare(m, Simple(t), actual, rx) == Ok(false)
  {}

  function Compare(req: Requirement, m: Model, expected: Value, actual: Val): Outcome<bool> {
    if req.variant == PropertyCode then Ok(ReleasedCompare(m, actual)) else DraftCompare(m, expected, actual, req.rx)
  }

  /** The first chosen value the expected value rejects, if any. */
  function FirstFailing(req: Requirement, m: Model, expected: Value, chosen: Bag): Outcome<Option<Val>>
    decreases chosen
  {
    if chosen == [] then Ok(None)
    else
      var ok :- Compare(req, m, expected, chosen[0].1);
      if !ok then Ok(Some(chosen[0].1)) else FirstFailing(req, m, expected, chosen[1..])
  }

  /** The released facet's value check rejects the first chosen value, whatever is required. */
  lemma ReachedValueCheckFails(req: Requirement, m: Model, expected: Value, chosen: Bag)
    requires req.variant == PropertyCode && chosen != []
    ensures FirstFailing(req, m, expected, chosen) == Ok(Some(chosen[0].1))
  {
    ReleasedCompareNeverHolds(m, chosen[0].1);
  }

  // ---------------------------------------------------------------- containers by pattern

  /** The loop that keeps, in order, the containers whose name passes the test. */
  function FilterPsets(test: TextTest, bags: Bags): Outcome<Bags>
    decreases bags
  {
    if bags == [] then Ok([])
    else
      var hit :- test(bags[0].0);
      var rest :- FilterPsets(test, bags[1..]);
      Ok(if hit then [bags[0]] + rest else rest)
  }

  /**
   * The kept containers are exactly those whose name matches, in their old order, and a test
   * that throws on none of them never throws.
   */
  lemma FilterPsetsSpec(test: TextTest, bags: Bags)
    ensures var r := FilterPsets(test, bags);
      (r.Ok? <==> forall i :: 0 <= i < |bags| ==> test(bags[i].0).Ok?)
      && (r.Ok? ==> forall b :: b in r.value <==> b in bags && test(b.0) == Ok(true))
      && (r.Ok? && UniqueKeys(bags) ==> UniqueKeys(r.value))
  {
    FilterPsetsOk(test, bags);
    FilterPsetsKeeps(test, bags);
    FilterPsetsUnique(test, bags);
  }

  /** The filter succeeds exactly when the test throws on no container name. */
  lemma {:induction false} FilterPsetsOk(test: TextTest, bags: Bags)
    ensures FilterPsets(test, bags).Ok? <==> forall i :: 0 <= i < |bags| ==> test(bags[i].0).Ok?
    decreases bags
  {
    if bags != [] {
      FilterPsetsOk(test, bags[1..]);
      assert forall i :: 0 < i < |bags| ==> bags[i] == bags[1..][i - 1];
    }
  }

  /** A successful filter keeps exactly the containers whose name matches. */
  lemma {:induction false} FilterPsetsKeeps(test: TextTest, bags: Bags)
    ensures var r := FilterPsets(test, bags);
      r.Ok? ==> forall b :: b in r.value <==> b in bags && test(b.0) == Ok(true)
    decreases bags
  {
    if bags != [] {
      FilterPsetsKeeps(test, bags[1..]);
      assert forall b :: b in bags <==> b == bags[0] || b in bags[1..] by {
        assert bags == [bags[0]] + bags[1..];
      }
      var r := FilterPsets(test, bags);
      var rest := FilterPsets(test, bags[1..]);
      if r.Ok? {
        assert rest.Ok?;
        assert forall b :: b in [bags[0]] + rest.value <==> b == bags[0] || b in rest.value;
      }
    }
  }

  /** Filtering containers with distinct names leaves containers with distinct names. */
  lemma {:induction false} FilterPsetsUnique(test: TextTest, bags: Bags)
    ensures var r := FilterPsets(test, bags);
      r.Ok? && UniqueKeys(bags) ==> UniqueKeys(r.value)
    decreases bags
  {
    if bags != [] {
      FilterPsetsUnique(test, bags[1..]);
      var r := FilterPsets(test, bags);
      var rest := FilterPsets(test, bags[1..]);
      if r.Ok? && UniqueKeys(bags) {
        assert rest.Ok?;
        KeptKeys(test, bags[1..]);
        if test(bags[0].0) == Ok(true) {
          assert r.value == [bags[0]] + rest.value;
          assert r.value[1..] == rest.value;
        }
      }
    }
  }

  /** A filter result behind the containers already kept. */
  function After(kept: Bags, r: Outcome<Bags>): (a: Outcome<Bags>)
    ensures kept == [] ==> a == r
  {
    if r.Ok? then (assert [] + r.value == r.value; Ok(kept + r.value)) else r
  }

  /** One pass of the filtering loop, seen from the containers already kept. */
  lemma FilterStep(test: TextTest, bags: Bags, i: nat, kept: Bags)
    requires i < |bags|
    ensures var hit := test(bags[i].0);
      !hit.Ok? ==> After(kept, FilterPsets(test, bags[i..])) == hit.PropagateFailure()
    ensures var hit := test(bags[i].0);
      hit.Ok? ==> After(kept, FilterPsets(test, bags[i..]))
                  == After(if hit.value then kept + [bags[i]] else kept, FilterPsets(test, bags[i + 1..]))
  {
    assert bags[i..][1..] == bags[i + 1..];
    var rest := FilterPsets(test, bags[i + 1..]);
    if rest.Ok? {
      assert kept + ([bags[i]] + rest.value) == (kept + [bags[i]]) + rest.value;
    }
  }

  /** The filtering loop of `matches`, copying each matching container into a fresh map. */
  method SelectPsets(test: TextTest, bags: Bags) returns (r: Outcome<Bags>)
    ensures r == FilterPsets(test, bags)
  {
    var filtered: Bags := [];
    var i := 0;
    assert bags[0..] == bags;
    while i < |bags|
      invariant 0 <= i <= |bags|
      invariant After(filtered, FilterPsets(test, bags[i..])) == FilterPsets(test, bags)
    {
      FilterStep(test, bags, i, filtered);
      var hit := test(bags[i].0);
      if !hit.Ok? {
        return hit.PropagateFailure();
      }
      if hit.value {
        filtered := filtered + [bags[i]];
      }
      i := i + 1;
    }
    assert filtered + [] == filtered;
    r := Ok(filtered);
  }

  /** Filtering keeps only keys that were there. */
  lemma {:induction false} KeptKeys(test: TextTest, bags: Bags)
    ensures var r := FilterPsets(test, bags);
      r.Ok? ==> forall k :: k in Keys(r.value) ==> k in Keys(bags)
    decreases bags
  {
    if bags != [] {
      KeptKeys(test, bags[1..]);
      var r := FilterPsets(test, bags);
      var rest := FilterPsets(test, bags[1..]);
      if r.Ok? && test(bags[0].0) == Ok(true) {
        assert r.value[1..] == rest.value;
      }
    }
  }

  // ---------------------------------------------------------------- one container, all containers

  /** How one pass of the container loop ends. */
  datatype Step = Continue | Stop(isPass: bool, reason: map<string, Datum>) | Return(res: FacetResult)

  /** The body of the labelled container loop for one bag. */
  function PsetStep(req: Requirement, card: Cardinality, m: Model, bag: Bag): Outcome<Step> {
    var choice :- Choose(req, m, bag);
    if choice.EmptyMember? then Ok(Stop(false, Tagged("NOVALUE")))
    else if choice.chosen == [] then
      Ok(if card == OPTIONAL then Return(FacetResult(true, Some(map[]))) else Stop(true, Tagged("NOVALUE")))
    else
      var carrier :- AsCarrier(m, Lookup(bag, CarrierKey(req.variant)).GetOr(Null));
      if carrier.None? then Ok(Stop(false, Tagged("NOVALUE")))
      else
        var props :- GetProperties(req.variant, m, carrier.value);
        var scan :- DatatypeScan(req.dataType, m, choice.chosen, props, true);
        if scan.Break? then Ok(Stop(scan.isPass, scan.reason))
        else if scan.Unsupported? then Ok(Stop(false, Tagged("NOVALUE")))
        else if req.value.None? then Ok(Continue)
        else
          var failing :- FirstFailing(req, m, req.value.value, choice.chosen);
          Ok(if failing.Some? then Stop(false, TaggedActual("VALUE", DatumOf(m, failing.value))) else Continue)
  }

  /** The container loop: the first pass that does not continue decides. */
  function ScanPsets(req: Requirement, card: Cardinality, m: Model, psets: Bags): Outcome<Step>
    decreases psets
  {
    if psets == [] then Ok(Continue)
    else
      var st :- PsetStep(req, card, m, psets[0].1);
      if st.Continue? then ScanPsets(req, card, m, psets[1..]) else Ok(st)
  }

  /** One container of the scan: its step decides, unless it lets the scan continue. */
  lemma ScanStep(req: Requirement, card: Cardinality, m: Model, psets: Bags)
    requires psets != []
    ensures var st := PsetStep(req, card, m, psets[0].1);
      ScanPsets(req, card, m, psets)
        == if !st.Ok? then st.PropagateFailure() else if st.value.Continue? then ScanPsets(req, card, m, psets[1..]) else Ok(st.value)
  {
  }

  /** The verdict after the loop: a prohibition inverts `isPass` and replaces the reason. */
  function Final(card: Cardinality, isPass: bool, reason: map<string, Datum>): (r: FacetResult)
    ensures card == PROHIBITED ==> r == FacetResult(!isPass, Some(Tagged("PROHIBITED")))
    ensures card != PROHIBITED ==> r == FacetResult(isPass, Some(reason))
  {
    if card == PROHIBITED then FacetResult(!isPass, Some(Tagged("PROHIBITED"))) else FacetResult(isPass, Some(reason))
  }

  /** `matches` once the candidate containers are known. */
  function CheckPsets(req: Requirement, card: Cardinality, m: Model, psets: Bags): Outcome<FacetResult> {
    if psets == [] then
      Ok(if card == OPTIONAL then FacetResult(true, Some(map[])) else Final(card, false, Tagged("NOPSET")))
    else
      var st :- ScanPsets(req, card, m, psets);
      match st
      case Continue => Ok(Final(card, true, map[]))
      case Stop(p, r) => Ok(Final(card, p, r))
      case Return(res) => Ok(res)
  }

  /** No container: an optional facet passes, a required one fails with NOPSET. */
  lemma NoContainer(req: Requirement, m: Model)
    ensures CheckPsets(req, OPTIONAL, m, []) == Ok(FacetResult(true, Some(map[])))
    ensures CheckPsets(req, REQUIRED, m, []) == Ok(FacetResult(false, Some(Tagged("NOPSET"))))
    ensures CheckPsets(req, PROHIBITED, m, []) == Ok(FacetResult(true, Some(Tagged("PROHIBITED"))))
  {}

  /**
   * A first container with nothing chosen: an optional facet passes, and a required one passes
   * too, carrying the NOVALUE reason.
   */
  lemma EmptySelectionPassesWithNoValue(req: Requirement, m: Model, psets: Bags)
    requires psets != [] && Choose(req, m, psets[0].1) == Ok(Chosen([]))
    ensures CheckPsets(req, OPTIONAL, m, psets) == Ok(FacetResult(true, Some(map[])))
    ensures CheckPsets(req, REQUIRED, m, psets) == Ok(FacetResult(true, Some(Tagged("NOVALUE"))))
  {}

  /** Only an optional facet returns from inside the loop. */
  lemma {:induction false} OnlyOptionalReturns(req: Requirement, card: Cardinality, m: Model, psets: Bags)
    requires card != OPTIONAL
    ensures var st := ScanPsets(req, card, m, psets); st.Ok? ==> !st.value.Return?
    decreases psets
  {
    if psets != [] {
      StepNeverReturns(req, card, m, psets[0].1);
      OnlyOptionalReturns(req, card, m, psets[1..]);
    }
  }

  /** Only an optional facet's pass over one container returns. */
  lemma StepNeverReturns(req: Requirement, card: Cardinality, m: Model, bag: Bag)
    requires card != OPTIONAL
    ensures var st := PsetStep(req, card, m, bag); st.Ok? ==> !st.value.Return?
  {
  }

  /** Apart from the optional early return, the loop does not depend on the cardinality. */
  lemma {:induction false} ScanIgnoresCardinality(req: Requirement, card: Cardinality, m: Model, psets: Bags)
    requires card != OPTIONAL
    ensures ScanPsets(req, card, m, psets) == ScanPsets(req, REQUIRED, m, psets)
    decreases psets
  {
    if psets != [] {
      assert PsetStep(req, card, m, psets[0].1) == PsetStep(req, REQUIRED, m, psets[0].1);
      ScanIgnoresCardinality(req, card, m, psets[1..]);
    }
  }

  /** A prohibited facet fails exactly where the required one passes, with reason PROHIBITED. */
  lemma ProhibitedInverts(req: Requirement, m: Model, psets: Bags)
    ensures CheckPsets(req, PROHIBITED, m, psets).Ok? <==> CheckPsets(req, REQUIRED, m, psets).Ok?
    ensures CheckPsets(req, REQUIRED, m, psets).Ok? ==>
      CheckPsets(req, PROHIBITED, m, psets).value
        == FacetResult(!CheckPsets(req, REQUIRED, m, psets).value.isPass, Some(Tagged("PROHIBITED")))
  {
    if psets != [] {
      ScanIgnoresCardinality(req, PROHIBITED, m, psets);
      OnlyOptionalReturns(req, REQUIRED, m, psets);
    }
  }

  /**
   * The draft records its container as a number, so a chosen member sends the data type step
   * into a failed cast.
   */
  lemma DraftCarrierCastFails(req: Requirement, card: Cardinality, m: Model, bag: Bag, o: Oid)
    requires req.variant == PropTempCode
    requires Lookup(bag, "id") == Some(CarrierVal(PropTempCode, o))
    requires var c := Choose(req, m, bag); c.Ok? && c.value.Chosen? && c.value.chosen != []
    ensures PsetStep(req, card, m, bag) == Throws(ClassCast)
  {}

  /** For the same reason the draft's logical-unknown test fails on any non-empty simple member. */
  lemma DraftSimpleMemberCastFails(req: Requirement, m: Model, bag: Bag, o: Oid)
    requires req.variant == PropTempCode && req.baseName.Some? && req.baseName.value.Simple?
    requires Lookup(bag, "id") == Some(CarrierVal(PropTempCode, o))
    requires IsNonEmptyValue(m, Lookup(bag, Extract(req.baseName.value)).GetOr(Null))
    ensures Choose(req, m, bag) == Throws(ClassCast)
  {}

  // ---------------------------------------------------------------- the loops as written

  /** The data type loop over the container's members. */
  method ScanDatatypes(dataType: Option<string>, m: Model, chosen: Bag, props: seq<Val>) returns (r: Outcome<Check>)
    ensures r == DatatypeScan(dataType, m, chosen, props, true)
  {
    var supported := true;
    var i := 0;
    while i < |props|
      invariant 0 <= i <= |props|
      invariant DatatypeScan(dataType, m, chosen, props[i..], supported) == DatatypeScan(dataType, m, chosen, props, true)
    {
      assert props[i..][1..] == props[i + 1..];
      if Live(m, props[i]) {
        var name := GetString(m, props[i].oid, "Name");
        if name.Some? && name.value in Keys(chosen) {
          var c := CheckMember(dataType, m, props[i].oid);
          if !c.Ok? {
            return c;
          }
          if c.value.Break? {
            return c;
          }
          if c.value.Unsupported? {
            supported := false;
          }
        }
      }
      i := i + 1;
    }
    r := Ok(if supported then Fine else Unsupported);
  }

  /** The value loop over the chosen members. */
  method FindFailing(req: Requirement, m: Model, expected: Value, chosen: Bag) returns (r: Outcome<Option<Val>>)
    ensures r == FirstFailing(req, m, expected, chosen)
  {
    var i := 0;
    while i < |chosen|
      invariant 0 <= i <= |chosen|
      invariant FirstFailing(req, m, expected, chosen[i..]) == FirstFailing(req, m, expected, chosen)
    {
      assert chosen[i..][1..] == chosen[i + 1..];
      var ok := Compare(req, m, expected, chosen[i].1);
      if !ok.Ok? {
        return ok.PropagateFailure();
      }
      if !ok.value {
        return Ok(Some(chosen[i].1));
      }
      i := i + 1;
    }
    r := Ok(None);
  }

  /** The labelled container loop with its `isPass` and `reason` variables. */
  method Evaluate(req: Requirement, card: Cardinality, m: Model, psets: Bags) returns (r: Outcome<FacetResult>)
    ensures r == CheckPsets(req, card, m, psets)
  {
    var isPass := psets != [];
    var reason: map<string, Datum> := map[];
    if !isPass {
      if card == OPTIONAL {
        return Ok(FacetResult(true, Some(reason)));
      }
      reason := Tagged("NOPSET");
      return Ok(Final(card, isPass, reason));
    }
    var i := 0;
    while i < |psets|
      invariant 0 <= i <= |psets|
      invariant ScanPsets(req, card, m, psets[i..]) == ScanPsets(req, card, m, psets)
    {
      assert psets[i..][1..] == psets[i + 1..];
      ScanStep(req, card, m, psets[i..]);
      var st := StepOne(req, card, m, psets[i].1);
      if !st.Ok? {
        return st.PropagateFailure();
      }
      if st.value.Return? {
        return Ok(st.value.res);
      } else if st.value.Stop? {
        isPass, reason := st.value.isPass, st.value.reason;
        break;
      }
      i := i + 1;
    }
    r := Ok(Final(card, isPass, reason));
  }

  /** One pass of the container loop. */
  method StepOne(req: Requirement, card: Cardinality, m: Model, bag: Bag) returns (r: Outcome<Step>)
    ensures r == PsetStep(req, card, m, bag)
  {
    var choice :- Choose(req, m, bag);
    if choice.EmptyMember? {
      return Ok(Stop(false, Tagged("NOVALUE")));
    }
    if choice.chosen == [] {
      return Ok(if card == OPTIONAL then Return(FacetResult(true, Some(map[]))) else Stop(true, Tagged("NOVALUE")));
    }
    var carrier :- AsCarrier(m, Lookup(bag, CarrierKey(req.variant)).GetOr(Null));
    if carrier.None? {
      return Ok(Stop(false, Tagged("NOVALUE")));
    }
    var props :- GetProperties(req.variant, m, carrier.value);
    var scan :- ScanDatatypes(req.dataType, m, choice.chosen, props);
    if scan.Break? {
      return Ok(Stop(scan.isPass, scan.reason));
    }
    if scan.Unsupported? {
      return Ok(Stop(false, Tagged("NOVALUE")));
    }
    if req.value.None? {
      return Ok(Continue);
    }
    var failing :- FindFailing(req, m, req.value.value, choice.chosen);
    r := Ok(if failing.Some? then Stop(false, TaggedActual("VALUE", DatumOf(m, failing.value))) else Continue);
  }
}
