/**
 * The draft property facet (`PropTemp`): the same requirement as the released one, with the
 * draft's readings of containers (keyed "id" by number) and its own `getPset`, which consults
 * only materials and profiles. It proposes no candidates of its own.
 */
module PropTempFacet {
  import opened Wrappers
  import opened JavaStrings
  import opened IfcModel
  import opened Results
  import opened OrderedMaps
  import opened Values
  import RestrictionValues
  import opened Facets
  import opened PropertyValues
  import opened PropertyBags
  import opened PropertyChecks

  /** The constructor computes no templates, so any field may be missing. */
  datatype PropTemp = PropTemp(
    propertySet: Option<Value>,
    baseName: Option<Value>,
    value: Option<Value>,
    dataType: Option<string>,
    uri: Option<string>,
    cardinality: Cardinality,
    instructions: Option<string>)

  /** `filter`: the draft selects nothing. */
  function Filter(m: Model): (r: seq<Oid>)
    ensures forall x :: x !in r
  {
    []
  }

  function Req(f: PropTemp, rx: RestrictionValues.Regex): (req: Requirement)
    ensures req.variant == PropTempCode && req.baseName == f.baseName
    ensures req.value == f.value && req.dataType == f.dataType && req.rx == rx
  {
    Requirement(PropTempCode, f.baseName, f.value, f.dataType, rx)
  }

  // ---------------------------------------------------------------- extractPset

  /** The members the draft's `getProperties` lists for a bag; a null list lists nothing. */
  function BaseMembers(m: Model, o: Oid): (r: seq<Val>)
    requires o in m.objects
    ensures ClassOf(m, o) == "IfcPropertySet" ==> r == GetList(m, o, "HasProperties").GetOr([])
    ensures ClassOf(m, o) == "IfcElementQuantity" ==> r == GetList(m, o, "Quantities").GetOr([])
    ensures ClassOf(m, o) !in {"IfcPropertySet", "IfcElementQuantity", "IfcMaterialProperties", "IfcProfileProperties"} ==> r == []
  {
    var t := ClassOf(m, o);
    if t == "IfcPropertySet" then GetList(m, o, "HasProperties").GetOr([])
    else if t == "IfcElementQuantity" then GetList(m, o, "Quantities").GetOr([])
    else if t == "IfcMaterialProperties" || t == "IfcProfileProperties" then GetList(m, o, "Properties").GetOr([])
    else []
  }

  /** `extractBaseValueMap`: the container's number under "id", then its named members. */
  function BaseBag(m: Model, o: Oid): Outcome<Bag>
    requires o in m.objects
  {
    PutMembers(PropTempCode, m, PropertyMember, [("id", CarrierVal(PropTempCode, o))], BaseMembers(m, o))
  }

  /** The feature loop of `extractPredefPropertySetMap`: each matching feature's value as text. */
  function PredefEntries(test: TextTest, m: Model, o: Oid, names: seq<string>, bag: Bag): Outcome<Bag>
    requires o in m.objects
    decreases names
  {
    if names == [] then Ok(bag)
    else
      var hit :- test(names[0]);
      PredefEntries(test, m, o, names[1..],
        if hit then Put(bag, names[0], Str(ToText(m, FeatureValue(m, o, names[0])))) else bag)
  }

  /** A predefined set's bag holds the text of every feature the base name matches, and nothing else new. */
  lemma {:induction false} PredefEntriesSpec(test: TextTest, m: Model, o: Oid, names: seq<string>, bag: Bag)
    requires o in m.objects
    ensures var r := PredefEntries(test, m, o, names, bag);
      r.Ok? ==> forall k :: (Lookup(r.value, k) ==
        if k in names && test(k) == Ok(true) then Some(Str(ToText(m, FeatureValue(m, o, k))))
        else Lookup(bag, k))
    decreases names
  {
    if names != [] {
      var hit := test(names[0]);
      if hit.Ok? {
        var next := if hit.value then Put(bag, names[0], Str(ToText(m, FeatureValue(m, o, names[0])))) else bag;
        PredefEntriesSpec(test, m, o, names[1..], next);
        if hit.value {
          PutLookup(bag, names[0], Str(ToText(m, FeatureValue(m, o, names[0]))));
        }
        assert forall k :: k in names <==> k == names[0] || k in names[1..] by {
          assert names == [names[0]] + names[1..];
        }
      }
    }
  }

  /** `extractPredefPropertySetMap`. */
  function PredefBag(baseName: Option<Value>, m: Model, o: Oid, rx: RestrictionValues.Regex): Outcome<Bag>
    requires o in m.objects
  {
    PredefEntries(NameTest(baseName, rx), m, o, m.objects[o].featureNames, [("id", CarrierVal(PropTempCode, o))])
  }

  /** A property set or element quantity, or a predefined property set, that the pattern names. */
  function ExtractPset(f: PropTemp, m: Model, pdef: Oid, rx: RestrictionValues.Regex): (r: Outcome<Bags>)
    requires pdef in m.objects
    ensures r.Ok? ==> |r.value| <= 1
    ensures r.Ok? && |r.value| == 1 ==> (GetString(m, pdef, "Name") == Some(r.value[0].0)
      && NameMatches(f.propertySet, r.value[0].0, rx) == Ok(true)
      && (ClassOf(m, pdef) in {"IfcPropertySet", "IfcElementQuantity"} || IsA(m, pdef, "IfcPreDefinedPropertySet")))
  {
    var t := ClassOf(m, pdef);
    var name := GetString(m, pdef, "Name");
    if t == "IfcPropertySet" || t == "IfcElementQuantity" || IsA(m, pdef, "IfcPreDefinedPropertySet") then
      if name.None? then Ok([])
      else
        var hit :- NameMatches(f.propertySet, name.value, rx);
        if !hit then Ok([])
        else
          var bag :-
            if t == "IfcPropertySet" || t == "IfcElementQuantity" then BaseBag(m, pdef) else PredefBag(f.baseName, m, pdef, rx);
          Ok([(name.value, bag)])
    else Ok([])
  }

  /** A matching property set's bag records the set by number, so its carrier cannot be read back. */
  lemma DraftBagCarrierIsNumber(f: PropTemp, m: Model, pdef: Oid, rx: RestrictionValues.Regex)
    requires pdef in m.objects && ClassOf(m, pdef) == "IfcPropertySet"
    requires var r := ExtractPset(f, m, pdef, rx); r.Ok? && |r.value| == 1
    requires forall i :: 0 <= i < |BaseMembers(m, pdef)| ==> !(Live(m, BaseMembers(m, pdef)[i]) && GetString(m, BaseMembers(m, pdef)[i].oid, "Name") == Some("id"))
    ensures var bag := ExtractPset(f, m, pdef, rx).value[0].1;
      Lookup(bag, "id") == Some(CarrierVal(PropTempCode, pdef))
      && AsCarrier(m, Lookup(bag, "id").value) == Throws(ClassCast)
  {
    var items := BaseMembers(m, pdef);
    PutMembersSpec(PropTempCode, m, PropertyMember, [("id", CarrierVal(PropTempCode, pdef))], items);
    NoIdContribution(m, items);
    PropertyValues.DraftCarrierCastFails(m, pdef);
  }

  /** No member named "id" contributes under "id". */
  lemma {:induction false} NoIdContribution(m: Model, items: seq<Val>)
    requires forall i :: 0 <= i < |items| ==> !(Live(m, items[i]) && GetString(m, items[i].oid, "Name") == Some("id"))
    ensures Contribution(PropTempCode, m, PropertyMember, items, "id") == None
    decreases items
  {
    if items != [] {
      forall i | 0 <= i < |items[1..]|
        ensures !(Live(m, items[1..][i]) && GetString(m, items[1..][i].oid, "Name") == Some("id"))
      {
        assert items[1..][i] == items[i + 1];
      }
      NoIdContribution(m, items[1..]);
    }
  }

  // ---------------------------------------------------------------- getPset

  /** The enhanced for loop over a type's sets casts each element; only null and objects pass. */
  function CastAll(items: seq<Val>): (r: Outcome<()>)
    ensures r.Ok? <==> forall i :: 0 <= i < |items| ==> items[i].Null? || items[i].Ref?
    ensures !r.Ok? ==> r == Throws(ClassCast)
  {
    if items == [] then Ok(())
    else if items[0].Null? || items[0].Ref? then
      var rest := CastAll(items[1..]);
      assert forall i :: 1 <= i < |items| ==> items[i] == items[1..][i - 1];
      rest
    else Throws(ClassCast)
  }

  /** The type loop: it reads each relation and casts each listed set, and keeps nothing. */
  function TypeCasts(m: Model, typeRels: seq<Val>): Outcome<()>
    decreases typeRels
  {
    if typeRels == [] then Ok(())
    else
      var rel :- AsObject(m, typeRels[0]);
      var typeObj := GetObject(m, rel, "RelatingType");
      var psets := if typeObj.None? then None else GetList(m, typeObj.value, "HasPropertySets");
      var cast :-
        if ClassOf(m, rel) != "IfcRelDefinesByType" || psets.None? then Ok(()) else CastAll(psets.value);
      TypeCasts(m, typeRels[1..])
  }

  /** The direct loop: each defined set the pattern names is kept under its name, first one first. */
  function DirectCollected(f: PropTemp, m: Model, rels: seq<Val>, rx: RestrictionValues.Regex, results: Bags): Outcome<Bags>
    decreases rels
  {
    if rels == [] then Ok(results)
    else
      var rel :- AsObject(m, rels[0]);
      var pdef := GetObject(m, rel, "RelatingPropertyDefinition");
      if ClassOf(m, rel) != "IfcRelDefinesByProperties" || pdef.None? then DirectCollected(f, m, rels[1..], rx, results)
      else
        var found :- ExtractPset(f, m, pdef.value, rx);
        DirectCollected(f, m, rels[1..], rx, if found == [] then results else PutIfAbsent(results, found[0].0, found[0].1))
  }

  /** A name collected once keeps its first bag. */
  lemma {:induction false} DirectCollectedKeeps(f: PropTemp, m: Model, rels: seq<Val>, rx: RestrictionValues.Regex, results: Bags, k: string)
    requires Lookup(results, k).Some?
    ensures var r := DirectCollected(f, m, rels, rx, results); r.Ok? ==> Lookup(r.value, k) == Lookup(results, k)
    decreases rels
  {
    if rels != [] && Live(m, rels[0]) {
      var rel := rels[0].oid;
      var pdef := GetObject(m, rel, "RelatingPropertyDefinition");
      if ClassOf(m, rel) != "IfcRelDefinesByProperties" || pdef.None? {
        DirectCollectedKeeps(f, m, rels[1..], rx, results, k);
      } else {
        var found := ExtractPset(f, m, pdef.value, rx);
        if found.Ok? {
          var next := if found.value == [] then results else PutIfAbsent(results, found.value[0].0, found.value[0].1);
          if found.value != [] {
            PutIfAbsentKeeps(results, found.value[0].0, found.value[0].1);
          }
          DirectCollectedKeeps(f, m, rels[1..], rx, next, k);
        }
      }
    }
  }

  /**
   * The draft's `getPset`: after the type and direct loops (whose only effect is what they
   * throw), the material or profile bag named by the property set's text; a missing property
   * set cannot be named.
   */
  function GetPsetSpec(f: PropTemp, m: Model, e: Oid, rx: RestrictionValues.Regex): Outcome<Option<Bag>>
    requires e in m.objects
  {
    var cast :- TypeCasts(m, GetList(m, e, "IsTypedBy").GetOr([]));
    var results :- DirectCollected(f, m, GetList(m, e, "IsDefinedBy").GetOr([]), rx, []);
    var tmp :- Associations(PropTempCode, m, e, []);
    if f.propertySet.None? then Throws(NullPointer) else Ok(Lookup(tmp, Extract(f.propertySet.value)))
  }

  /** Whatever sets the element defines, once the loops get through, only materials and profiles answer. */
  lemma DraftIgnoresDefinedSets(f: PropTemp, m: Model, e: Oid, rx: RestrictionValues.Regex)
    requires e in m.objects && f.propertySet.Some?
    requires TypeCasts(m, GetList(m, e, "IsTypedBy").GetOr([])).Ok?
    requires DirectCollected(f, m, GetList(m, e, "IsDefinedBy").GetOr([]), rx, []).Ok?
    requires Associations(PropTempCode, m, e, []).Ok?
    ensures GetPsetSpec(f, m, e, rx) == Ok(Lookup(Associations(PropTempCode, m, e, []).value, Extract(f.propertySet.value)))
  {}

  // ---------------------------------------------------------------- matches

  /** The containers `matches` checks; a missing property set selects none. */
  function PsetsOf(f: PropTemp, m: Model, e: Oid, rx: RestrictionValues.Regex): Outcome<Bags>
    requires e in m.objects
  {
    if f.propertySet.None? then Ok([])
    else if f.propertySet.value.Simple? then
      var one :- GetPsetSpec(f, m, e, rx);
      Ok(if one.Some? then [(Extract(f.propertySet.value), one.value)] else [])
    else
      var all :- PsetsSpec(PropTempCode, m, e);
      FilterPsets(ValueTest(f.propertySet.value, rx), all)
  }

  function MatchesSpec(f: PropTemp, m: Model, e: Oid, rx: RestrictionValues.Regex): Outcome<FacetResult>
    requires e in m.objects
  {
    var psets :- PsetsOf(f, m, e, rx);
    CheckPsets(Req(f, rx), f.cardinality, m, psets)
  }

  /** Without a property set the draft finds no container and decides by cardinality alone. */
  lemma NoPropertySetNoContainer(f: PropTemp, m: Model, e: Oid, rx: RestrictionValues.Regex)
    requires e in m.objects && f.propertySet.None?
    ensures f.cardinality == OPTIONAL ==> MatchesSpec(f, m, e, rx) == Ok(FacetResult(true, Some(map[])))
    ensures f.cardinality == REQUIRED ==> MatchesSpec(f, m, e, rx) == Ok(FacetResult(false, Some(Tagged("NOPSET"))))
    ensures f.cardinality == PROHIBITED ==> MatchesSpec(f, m, e, rx) == Ok(FacetResult(true, Some(Tagged("PROHIBITED"))))
  {
    NoContainer(Req(f, rx), m);
  }

  /** A set pattern yields exactly the element's bags whose name it matches. */
  lemma PatternSelectsBags(f: PropTemp, m: Model, e: Oid, rx: RestrictionValues.Regex)
    requires e in m.objects && f.propertySet.Some? && f.propertySet.value.Restricted?
    requires PsetsSpec(PropTempCode, m, e).Ok?
    ensures var p := PsetsOf(f, m, e, rx);
      var all := PsetsSpec(PropTempCode, m, e).value;
      p.Ok? ==> forall b :: b in p.value <==> b in all && Values.Matches(f.propertySet.value, Some(b.0), rx) == Ok(true)
  {
    FilterPsetsSpec(ValueTest(f.propertySet.value, rx), PsetsSpec(PropTempCode, m, e).value);
  }

  // ---------------------------------------------------------------- the loops

  /** `extractBaseValueMap`'s member loop. */
  method FillBaseBag(m: Model, o: Oid) returns (r: Outcome<Bag>)
    requires o in m.objects
    ensures r == BaseBag(m, o)
  {
    var bag: Bag := [("id", CarrierVal(PropTempCode, o))];
    var props := BaseMembers(m, o);
    var i := 0;
    while i < |props|
      invariant 0 <= i <= |props|
      invariant PutMembers(PropTempCode, m, PropertyMember, bag, props[i..]) == BaseBag(m, o)
    {
      assert props[i..][1..] == props[i + 1..];
      var prop :- AsObject(m, props[i]);
      var pn := GetString(m, prop, "Name");
      if pn.Some? {
        bag := Put(bag, pn.value, ExtractPropertyValue(PropTempCode, m, prop));
      }
      i := i + 1;
    }
    r := Ok(bag);
  }

  /** `extractPredefPropertySetMap`'s feature loop. */
  method FillPredefBag(baseName: Option<Value>, m: Model, o: Oid, rx: RestrictionValues.Regex) returns (r: Outcome<Bag>)
    requires o in m.objects
    ensures r == PredefBag(baseName, m, o, rx)
  {
    var bag: Bag := [("id", CarrierVal(PropTempCode, o))];
    var names := m.objects[o].featureNames;
    var i := 0;
    while i < |names|
      invariant 0 <= i <= |names|
      invariant PredefEntries(NameTest(baseName, rx), m, o, names[i..], bag) == PredefBag(baseName, m, o, rx)
    {
      assert names[i..][1..] == names[i + 1..];
      var hit :- NameMatches(baseName, names[i], rx);
      if hit {
        bag := Put(bag, names[i], Str(ToText(m, FeatureValue(m, o, names[i]))));
      }
      i := i + 1;
    }
    r := Ok(bag);
  }

  method ExtractOne(f: PropTemp, m: Model, pdef: Oid, rx: RestrictionValues.Regex) returns (r: Outcome<Bags>)
    requires pdef in m.objects
    ensures r == ExtractPset(f, m, pdef, rx)
  {
    var t := ClassOf(m, pdef);
    var name := GetString(m, pdef, "Name");
    if !(t == "IfcPropertySet" || t == "IfcElementQuantity" || IsA(m, pdef, "IfcPreDefinedPropertySet")) || name.None? {
      return Ok([]);
    }
    var hit :- NameMatches(f.propertySet, name.value, rx);
    if !hit {
      return Ok([]);
    }
    var bag: Bag;
    if t == "IfcPropertySet" || t == "IfcElementQuantity" {
      bag :- FillBaseBag(m, pdef);
    } else {
      bag :- FillPredefBag(f.baseName, m, pdef, rx);
    }
    r := Ok([(name.value, bag)]);
  }

  /** The type loop of `getPset`: each relation read and each listed set cast. */
  method CastTypeSets(m: Model, typeRels: seq<Val>) returns (r: Outcome<()>)
    ensures r == TypeCasts(m, typeRels)
  {
    var i := 0;
    while i < |typeRels|
      invariant 0 <= i <= |typeRels|
      invariant TypeCasts(m, typeRels[i..]) == TypeCasts(m, typeRels)
    {
      assert typeRels[i..][1..] == typeRels[i + 1..];
      var rel :- AsObject(m, typeRels[i]);
      var typeObj := GetObject(m, rel, "RelatingType");
      var psets := if typeObj.None? then None else GetList(m, typeObj.value, "HasPropertySets");
      if ClassOf(m, rel) == "IfcRelDefinesByType" && psets.Some? {
        var items := psets.value;
        var j := 0;
        while j < |items|
          invariant 0 <= j <= |items|
          invariant CastAll(items[j..]) == CastAll(items)
        {
          assert items[j..][1..] == items[j + 1..];
          if !(items[j].Null? || items[j].Ref?) {
            return Throws(ClassCast);
          }
          j := j + 1;
        }
      }
      i := i + 1;
    }
    return Ok(());
  }

  /** The direct loop of `getPset`: each defined set the pattern names kept under its name. */
  method CollectDirect(f: PropTemp, m: Model, rels: seq<Val>, rx: RestrictionValues.Regex) returns (r: Outcome<Bags>)
    ensures r == DirectCollected(f, m, rels, rx, [])
  {
    var results: Bags := [];
    var i := 0;
    while i < |rels|
      invariant 0 <= i <= |rels|
      invariant DirectCollected(f, m, rels[i..], rx, results) == DirectCollected(f, m, rels, rx, [])
    {
      assert rels[i..][1..] == rels[i + 1..];
      var rel :- AsObject(m, rels[i]);
      var pdef := GetObject(m, rel, "RelatingPropertyDefinition");
      if ClassOf(m, rel) == "IfcRelDefinesByProperties" && pdef.Some? {
        var found :- ExtractOne(f, m, pdef.value, rx);
        if found != [] {
          results := PutIfAbsent(results, found[0].0, found[0].1);
        }
      }
      i := i + 1;
    }
    return Ok(results);
  }

  method GetPset(f: PropTemp, m: Model, e: Oid, rx: RestrictionValues.Regex) returns (r: Outcome<Option<Bag>>)
    requires e in m.objects
    ensures r == GetPsetSpec(f, m, e, rx)
  {
    var cast :- CastTypeSets(m, GetList(m, e, "IsTypedBy").GetOr([]));
    var results :- CollectDirect(f, m, GetList(m, e, "IsDefinedBy").GetOr([]), rx);
    var tmp := new PsetCollector(PropTempCode);
    var done := tmp.VisitAssociations(m, e);
    if !done.Ok? {
      return done.PropagateFailure();
    }
    if f.propertySet.None? {
      return Throws(NullPointer);
    }
    r := Ok(Lookup(tmp.bags, Extract(f.propertySet.value)));
  }

  method Matches(f: PropTemp, m: Model, e: Oid, rx: RestrictionValues.Regex) returns (r: Outcome<FacetResult>)
    requires e in m.objects
    ensures r == MatchesSpec(f, m, e, rx)
  {
    var psets: Bags := [];
    if f.propertySet.Some? && f.propertySet.value.Simple? {
      var one :- GetPset(f, m, e, rx);
      psets := if one.Some? then [(Extract(f.propertySet.value), one.value)] else [];
    } else if f.propertySet.Some? {
      var collector := new PsetCollector(PropTempCode);
      var all := collector.CollectPsets(m, e);
      if !all.Ok? {
        return all.PropagateFailure();
      }
      psets :- SelectPsets(ValueTest(f.propertySet.value, rx), collector.bags);
    }
    r := Evaluate(Req(f, rx), f.cardinality, m, psets);
  }
}
