/**
 * The values the property facets read from an IFC model: how a property's value is unwrapped
 * into a plain Java value, when such a value counts as present, which data type a property
 * carries, and which members a property container lists. The released facet (`Property`) and
 * its draft (`PropTemp`) differ in a few of these readings; `Variant` says which is meant.
 */
module PropertyValues {
  import opened Wrappers
  import opened JavaStrings
  import opened IfcModel
  import opened Results
  import opened OrderedMaps

  datatype Variant = PropertyCode | PropTempCode

  /** A property bag: member name to unwrapped value, plus an entry naming its container. */
  type Bag = Entries<Val>

  /** The key under which a bag records its container. */
  function CarrierKey(variant: Variant): (k: string)
    ensures k == (if variant == PropertyCode then "_entity" else "id")
  {
    if variant == PropertyCode then "_entity" else "id"
  }

  /** `String.valueOf` of a `long`. */
  function LongText(i: int): string {
    if i < 0 then "-" + NatToString(-i) else NatToString(i)
  }

  /** What a bag records for its container: the object itself, or (draft) its oid as a `Long`. */
  function CarrierVal(variant: Variant, o: Oid): (r: Val)
    ensures variant == PropertyCode ==> r == Ref(o)
    ensures variant == PropTempCode ==> r.Scalar? && r.cls == "Long"
  {
    if variant == PropertyCode then Ref(o) else Scalar("Long", LongText(o))
  }

  /** `(IdEObject) bag.get(key)`: null stays null, an object is read, anything else fails its cast. */
  function AsCarrier(m: Model, v: Val): (r: Outcome<Option<Oid>>)
    ensures r.Ok? <==> v.Null? || v.Ref?
    ensures r.Ok? ==> (r.value.Some? <==> Live(m, v))
    ensures r.Ok? && r.value.Some? ==> r.value.value == v.oid && v.oid in m.objects
    ensures !r.Ok? ==> r == Throws(ClassCast)
  {
    if Live(m, v) then Ok(Some(v.oid))
    else if v.Null? || v.Ref? then Ok(None)
    else Throws(ClassCast)
  }

  /** The draft records its container as a number, so reading it back as an object always fails. */
  lemma DraftCarrierCastFails(m: Model, o: Oid)
    ensures AsCarrier(m, CarrierVal(PropTempCode, o)) == Throws(ClassCast)
  {}

  /** The released facet reads back exactly the container it recorded. */
  lemma CarrierRoundTrip(m: Model, o: Oid)
    requires o in m.objects
    ensures AsCarrier(m, CarrierVal(PropertyCode, o)) == Ok(Some(o))
  {}

  /** `"UNKNOWN".equalsIgnoreCase(s) || "UNDEFINED".equalsIgnoreCase(s)`; both literals are upper case. */
  predicate IsUnknownWord(s: string) {
    Upper(s) == "UNKNOWN" || Upper(s) == "UNDEFINED"
  }

  /**
   * `isNonEmptyValue`: null, an empty text or list, and an enum or text reading UNKNOWN or
   * UNDEFINED (ignoring case and outer blanks) are empty; everything else is a value.
   */
  function IsNonEmptyValue(m: Model, v: Val): (r: bool)
    ensures IsNull(m, v) ==> !r
    ensures v.Str? ==> (r <==> v.s != "")
    ensures v.List? ==> (r <==> v.items != [])
    ensures !v.Str? && !v.List? && !IsNull(m, v) ==> (r <==> !IsUnknownWord(Trim(ToText(m, v))))
  {
    if IsNull(m, v) then false
    else if v.Str? then |v.s| > 0
    else if v.List? then |v.items| > 0
    else if v.Enum? && IsUnknownWord(v.name) then false
    else !IsUnknownWord(Trim(ToText(m, v)))
  }

  /**
   * `unwrapIfcValue` of an IFC value object: its `wrappedValue` when set, else the object's own
   * text. The draft returns the wrapped value's text rather than the value.
   */
  function UnwrapIfcValue(variant: Variant, m: Model, o: Oid): (r: Val)
    requires o in m.objects
    ensures r != Null
    ensures variant == PropTempCode ==> r.Str?
    ensures TryGet(m, o, ["wrappedValue"]) == Null ==> r == Str(m.objects[o].text)
    ensures variant == PropertyCode && TryGet(m, o, ["wrappedValue"]) != Null ==> r == TryGet(m, o, ["wrappedValue"])
  {
    var wf := TryGet(m, o, ["wrappedValue"]);
    if wf == Null then Str(m.objects[o].text)
    else if variant == PropertyCode then wf
    else Str(ToText(m, wf))
  }

  /**
   * `unwrapIfValue`: an IFC value object is unwrapped; anything else is kept as it is, except that
   * the draft turns it into null.
   */
  function UnwrapIfValue(variant: Variant, m: Model, v: Val): (r: Val)
    ensures Live(m, v) ==> r == UnwrapIfcValue(variant, m, v.oid)
    ensures !Live(m, v) ==> r == (if variant == PropTempCode || IsNull(m, v) then Null else v)
  {
    if Live(m, v) then UnwrapIfcValue(variant, m, v.oid)
    else if variant == PropTempCode || IsNull(m, v) then Null
    else v
  }

  function UnwrapEach(variant: Variant, m: Model, raw: seq<Val>): (r: seq<Val>)
    ensures |r| == |raw| && forall i :: 0 <= i < |raw| ==> r[i] == UnwrapIfValue(variant, m, raw[i])
  {
    if raw == [] then [] else [UnwrapIfValue(variant, m, raw[0])] + UnwrapEach(variant, m, raw[1..])
  }

  /** `unwrapList`: a null list reads as the empty list. */
  function UnwrapList(variant: Variant, m: Model, raw: Option<seq<Val>>): (r: Val)
    ensures r.List? && r.items == UnwrapEach(variant, m, raw.GetOr([]))
  {
    List(UnwrapEach(variant, m, raw.GetOr([])))
  }

  /**
   * One bound of a bounded value: the released facet keeps an object bound unwrapped, the draft
   * keeps any non-null bound (a non-object one as null).
   */
  function BoundEntry(variant: Variant, m: Model, prop: Oid, a: string): (r: seq<Val>)
    requires prop in m.objects
    ensures |r| <= 1
    ensures IsNull(m, FeatureValue(m, prop, a)) ==> r == []
    ensures Live(m, FeatureValue(m, prop, a)) ==> r == [UnwrapIfcValue(variant, m, FeatureValue(m, prop, a).oid)]
  {
    var raw := FeatureValue(m, prop, a);
    if Live(m, raw) then [UnwrapIfcValue(variant, m, raw.oid)]
    else if variant == PropertyCode || IsNull(m, raw) then []
    else [Null]
  }

  /** `extractPropertyValue`: the value a property contributes to a bag, by the property's class. */
  function ExtractPropertyValue(variant: Variant, m: Model, prop: Oid): (r: Val)
    requires prop in m.objects
    ensures ClassOf(m, prop) == "IfcPropertySingleValue" ==>
      r == (if GetObject(m, prop, "NominalValue").Some? then UnwrapIfcValue(variant, m, GetObject(m, prop, "NominalValue").value) else Null)
    ensures ClassOf(m, prop) == "IfcPropertyListValue" ==> r == UnwrapList(variant, m, GetList(m, prop, "ListValues"))
    ensures ClassOf(m, prop) == "IfcPropertyEnumeratedValue" ==> r == UnwrapList(variant, m, GetList(m, prop, "EnumerationValues"))
    ensures ClassOf(m, prop) == "IfcPropertyTableValue" ==>
      r == List(UnwrapEach(variant, m, GetList(m, prop, "DefiningValues").GetOr([])) + UnwrapEach(variant, m, GetList(m, prop, "DefinedValues").GetOr([])))
    ensures ClassOf(m, prop) == "IfcPropertyBoundedValue" ==> r.List? && |r.items| <= 3
    ensures (ClassOf(m, prop) !in {"IfcPropertySingleValue", "IfcPropertyListValue", "IfcPropertyEnumeratedValue",
      "IfcPropertyBoundedValue", "IfcPropertyTableValue"}) ==> r == Null
  {
    var t := ClassOf(m, prop);
    if t == "IfcPropertySingleValue" then
      var nominal := GetObject(m, prop, "NominalValue");
      if nominal.Some? then UnwrapIfcValue(variant, m, nominal.value) else Null
    else if t == "IfcPropertyListValue" then UnwrapList(variant, m, GetList(m, prop, "ListValues"))
    else if t == "IfcPropertyEnumeratedValue" then UnwrapList(variant, m, GetList(m, prop, "EnumerationValues"))
    else if t == "IfcPropertyBoundedValue" then
      List(BoundEntry(variant, m, prop, "UpperBoundValue") + BoundEntry(variant, m, prop, "LowerBoundValue")
        + BoundEntry(variant, m, prop, "SetPointValue"))
    else if t == "IfcPropertyTableValue" then
      List(UnwrapEach(variant, m, GetList(m, prop, "DefiningValues").GetOr([]))
        + UnwrapEach(variant, m, GetList(m, prop, "DefinedValues").GetOr([])))
    else Null
  }

  /** `unwrapTypeName`: null has none; an object names its class, any other value its Java class. */
  function UnwrapTypeName(m: Model, v: Val): (r: Option<string>)
    ensures r.None? <==> IsNull(m, v)
    ensures Live(m, v) ==> r == Some(ClassOf(m, v.oid))
  {
    if IsNull(m, v) then None
    else if v.Ref? then Some(ClassOf(m, v.oid))
    else Some(SimpleClassName(v))
  }

  /** The quantity value features, in the order they are tried. */
  const QuantityValueNames := ["LengthValue", "AreaValue", "VolumeValue", "CountValue", "WeightValue", "TimeValue"]

  /** The value of a class's structural feature number 3, or null when it has fewer features. */
  function FourthFeature(m: Model, q: Oid): (r: Val)
    requires q in m.objects
    ensures |m.objects[q].featureNames| <= 3 ==> r == Null
  {
    var names := m.objects[q].featureNames;
    if |names| > 3 then FeatureValue(m, q, names[3]) else Null
  }

  /** A quantity's number: the first set value feature, else feature number 3. */
  function QuantityNumber(m: Model, q: Oid): (r: Val)
    requires q in m.objects
    ensures TryGet(m, q, QuantityValueNames) != Null ==> r == TryGet(m, q, QuantityValueNames)
  {
    var n := TryGet(m, q, QuantityValueNames);
    if n != Null then n else FourthFeature(m, q)
  }

  /**
   * `inferQuantityDataType`: the measure type of a quantity class, by class-name prefix; else the
   * Java class of a numeric value; else none.
   */
  function InferQuantityDataType(cls: string, numeric: Val): (r: Option<string>)
    ensures StartsWith(cls, "IfcQuantityLength") ==> r == Some("IfcLengthMeasure")
    ensures r.None? ==> !(numeric.Scalar? && IsNumberClass(numeric.cls))
  {
    if StartsWith(cls, "IfcQuantityLength") then Some("IfcLengthMeasure")
    else if StartsWith(cls, "IfcQuantityArea") then Some("IfcAreaMeasure")
    else if StartsWith(cls, "IfcQuantityVolume") then Some("IfcVolumeMeasure")
    else if StartsWith(cls, "IfcQuantityCount") then Some("IfcCountMeasure")
    else if StartsWith(cls, "IfcQuantityWeight") then Some("IfcMassMeasure")
    else if StartsWith(cls, "IfcQuantityTime") then Some("IfcTimeMeasure")
    else if numeric.Scalar? && IsNumberClass(numeric.cls) then Some(numeric.cls)
    else None
  }

  /** A text that starts with a longer prefix starts with each of its own prefixes. */
  lemma PrefixNarrows(s: string, p: string, q: string)
    requires StartsWith(s, q) && StartsWith(q, p)
    ensures StartsWith(s, p)
  {
    assert s[..|p|] == s[..|q|][..|p|];
  }

  /** A class that is not a quantity class is typed by its number alone. */
  lemma NonQuantityTypedByNumber(cls: string, numeric: Val)
    requires !StartsWith(cls, "IfcQuantity")
    ensures InferQuantityDataType(cls, numeric) ==
      (if numeric.Scalar? && IsNumberClass(numeric.cls) then Some(numeric.cls) else None)
  {
    var q := "IfcQuantity";
    forall p | p in ["IfcQuantityLength", "IfcQuantityArea", "IfcQuantityVolume", "IfcQuantityCount", "IfcQuantityWeight", "IfcQuantityTime"]
      ensures !StartsWith(cls, p)
    {
      assert StartsWith(p, q);
      if StartsWith(cls, p) {
        PrefixNarrows(cls, q, p);
      }
    }
  }

  /** A weight quantity is a mass measure: no earlier prefix matches it. */
  lemma WeightIsMass(cls: string, numeric: Val)
    requires StartsWith(cls, "IfcQuantityWeight")
    ensures InferQuantityDataType(cls, numeric) == Some("IfcMassMeasure")
  {
    assert cls[11] == 'W';
  }

  /** One null per feature that does not hold an object (the pseudo properties of a predefined set). */
  function PseudoProperties(m: Model, o: Oid, names: seq<string>): (r: seq<Val>)
    requires o in m.objects
    ensures |r| <= |names| && forall i :: 0 <= i < |r| ==> r[i] == Null
  {
    if names == [] then []
    else (if Live(m, FeatureValue(m, o, names[0])) then [] else [Null]) + PseudoProperties(m, o, names[1..])
  }

  /**
   * `getProperties` of a container, iterated by its callers: the members of a property set, an
   * element quantity, or material or profile properties; a null member list cannot be iterated.
   * Other containers list nothing, except that the released facet lists one null per non-object
   * feature of a predefined property set.
   */
  function GetProperties(variant: Variant, m: Model, o: Oid): (r: Outcome<seq<Val>>)
    requires o in m.objects
    ensures r.Ok? || r == Throws(NullPointer)
    ensures ClassOf(m, o) == "IfcPropertySet" ==> r == (if GetList(m, o, "HasProperties").Some? then Ok(GetList(m, o, "HasProperties").value) else Throws(NullPointer))
    ensures ClassOf(m, o) !in {"IfcPropertySet", "IfcElementQuantity", "IfcMaterialProperties", "IfcProfileProperties"} ==>
      r.Ok? && forall i :: 0 <= i < |r.value| ==> r.value[i] == Null
  {
    var t := ClassOf(m, o);
    var listed :=
      if t == "IfcPropertySet" then Some(GetList(m, o, "HasProperties"))
      else if t == "IfcElementQuantity" then Some(GetList(m, o, "Quantities"))
      else if t == "IfcMaterialProperties" || t == "IfcProfileProperties" then Some(GetList(m, o, "Properties"))
      else None;
    if listed.Some? then
      (if listed.value.Some? then Ok(listed.value.value) else Throws(NullPointer))
    else if variant == PropertyCode && t == "IfcPreDefinedPropertySet" then Ok(PseudoProperties(m, o, m.objects[o].featureNames))
    else Ok([])
  }

  /** The verdict of the first same-named single-value property: is its logical value unknown? */
  function LogicalVerdict(m: Model, p: Oid): bool
    requires p in m.objects
  {
    var nominal := GetObject(m, p, "NominalValue");
    if nominal.None? || ClassOf(m, nominal.value) != "IfcLogical" then false
    else
      var wrapped := TryGet(m, nominal.value, ["wrappedValue"]);
      if wrapped.Enum? then IsUnknownWord(wrapped.name)
      else if !IsNull(m, wrapped) then IsUnknownWord(Trim(ToText(m, wrapped)))
      else true
  }

  /** The scan of a container's members for the first single-value property named `base`. */
  function LogicalUnknownIn(m: Model, props: seq<Val>, base: string): (r: bool)
    ensures r ==> exists i :: (0 <= i < |props| && Live(m, props[i])
      && GetString(m, props[i].oid, "Name") == Some(base) && ClassOf(m, props[i].oid) == "IfcPropertySingleValue")
  {
    if props == [] then false
    else
      var p := props[0];
      if Live(m, p) && GetString(m, p.oid, "Name") == Some(base) && ClassOf(m, p.oid) == "IfcPropertySingleValue" then
        LogicalVerdict(m, p.oid)
      else
        var r := LogicalUnknownIn(m, props[1..], base);
        assert r ==> exists i :: (1 <= i < |props| && Live(m, props[i])
          && GetString(m, props[i].oid, "Name") == Some(base) && ClassOf(m, props[i].oid) == "IfcPropertySingleValue") by {
          if r {
            var i :| 0 <= i < |props[1..]| && Live(m, props[1..][i])
              && GetString(m, props[1..][i].oid, "Name") == Some(base) && ClassOf(m, props[1..][i].oid) == "IfcPropertySingleValue";
            assert props[1..][i] == props[i + 1];
          }
        }
        r
  }

  /**
   * `isLogicalUnknown`: the released facet first asks the member's value itself (an enum or text
   * reading UNKNOWN or UNDEFINED); both then ask the container's same-named single-value property.
   */
  function IsLogicalUnknown(variant: Variant, m: Model, bag: Bag, base: string, propVal: Val): (r: Outcome<bool>)
    ensures variant == PropertyCode && propVal.Enum? && IsUnknownWord(propVal.name) ==> r == Ok(true)
    ensures variant == PropertyCode && !IsNull(m, propVal) && IsUnknownWord(Trim(ToText(m, propVal))) ==> r == Ok(true)
    ensures AsCarrier(m, Lookup(bag, CarrierKey(variant)).GetOr(Null)) == Ok(None) ==> r.Ok?
    ensures r.Ok? && r.value && !(variant == PropertyCode && !IsNull(m, propVal) && (propVal.Enum? || IsUnknownWord(Trim(ToText(m, propVal))))) ==>
      Lookup(bag, CarrierKey(variant)).Some?
  {
    if variant == PropertyCode && propVal.Enum? && IsUnknownWord(propVal.name) then Ok(true)
    else if variant == PropertyCode && !IsNull(m, propVal) && IsUnknownWord(Trim(ToText(m, propVal))) then Ok(true)
    else
      var carrier :- AsCarrier(m, Lookup(bag, CarrierKey(variant)).GetOr(Null));
      if carrier.None? then Ok(false)
      else
        var props :- GetProperties(variant, m, carrier.value);
        Ok(LogicalUnknownIn(m, props, base))
  }

  /** A value as a reason map stores it: null, a list of stored values, or its text. */
  function DatumOf(m: Model, v: Val): Datum
    decreases v, 1
  {
    match v
    case List(items) => DItems(DatumsOf(m, v, items))
    case _ => if IsNull(m, v) then DNull else DText(ToText(m, v))
  }

  function DatumsOf(m: Model, owner: Val, items: seq<Val>): (r: seq<Datum>)
    requires forall x :: x in items ==> x < owner
    ensures |r| == |items|
    decreases owner, 0, |items|
  {
    if items == [] then []
    else
      assert items[0] in items;
      assert forall x :: x in items[1..] ==> x in items;
      [DatumOf(m, items[0])] + DatumsOf(m, owner, items[1..])
  }

  /** A stored value renders as `String.valueOf` renders the value itself. */
  lemma {:induction false} DatumRendersAsText(m: Model, v: Val)
    ensures Render(DatumOf(m, v)) == ToText(m, v)
    decreases v, 1
  {
    if v.List? {
      DatumsRenderAsText(m, v, v.items);
    }
  }

  lemma {:induction false} DatumsRenderAsText(m: Model, owner: Val, items: seq<Val>)
    requires forall x :: x in items ==> x < owner
    ensures RenderItems(DatumsOf(m, owner, items)) == ItemsText(m, owner, items)
    decreases owner, 0, |items|
  {
    if items != [] {
      assert items[0] in items;
      DatumRendersAsText(m, items[0]);
      assert forall x :: x in items[1..] ==> x in items;
      DatumsRenderAsText(m, owner, items[1..]);
      var ds := DatumsOf(m, owner, items);
      assert ds[1..] == DatumsOf(m, owner, items[1..]);
    }
  }
}
