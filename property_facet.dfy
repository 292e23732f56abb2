/**
 * The released property facet: a property set (by name or pattern) and a member of it (by name
 * or pattern), optionally with a required value and data type. Candidates are every object
 * definition, material definition and profile; an element passes when a matching container
 * holds a matching member whose class and value agree.
 */
module PropertyFacet {
  import opened Wrappers
  import opened JavaStrings
  import opened IfcModel
  import opened Results
  import opened OrderedMaps
  import opened Values
  import RestrictionValues
  import opened Facets
  import opened PropertyValues
  import opened PropertyBags
  import opened PropertyChecks

  datatype Property = Property(
    propertySet: Value,
    baseName: Value,
    value: Option<Value>,
    dataType: Option<string>,
    uri: Option<string>,
    cardinality: Cardinality,
    instructions: Option<string>,
    applicabilityTemplate: string,
    requirementTemplate: string,
    prohibitedTemplate: string)

  /** The text ends by naming the dataset. */
  predicate NamesDataset(t: string, propertySet: Value) {
    EndsWith(t, " in the dataset " + Extract(propertySet))
  }

  /**
   * The constructor: the templates read both names, so a missing property set or base name
   * throws. The prohibition is the requirement with "shall" negated.
   */
  function Make(propertySet: Option<Value>, baseName: Option<Value>, value: Option<Value>, dataType: Option<string>,
                uri: Option<string>, c: Cardinality, instructions: Option<string>): (r: Outcome<Property>)
    ensures r.Ok? <==> propertySet.Some? && baseName.Some?
    ensures !r.Ok? ==> r == Throws(NullPointer)
    ensures r.Ok? ==> (r.value.propertySet == propertySet.value && r.value.baseName == baseName.value
      && r.value.value == value && r.value.dataType == dataType && r.value.cardinality == c)
    ensures r.Ok? ==> var head := Extract(baseName.value) + " data shall ";
      var t := r.value.requirementTemplate;
      |head| <= |t| && t[..|head|] == head
      && r.value.prohibitedTemplate == Extract(baseName.value) + " data shall not " + t[|head|..]
    ensures r.Ok? ==> (NamesDataset(r.value.applicabilityTemplate, propertySet.value)
      && NamesDataset(r.value.requirementTemplate, propertySet.value)
      && NamesDataset(r.value.prohibitedTemplate, propertySet.value))
  {
    if baseName.None? || propertySet.None? then Throws(NullPointer)
    else
      var bn := Extract(baseName.value);
      var dataset := " in the dataset " + Extract(propertySet.value);
      var head := bn + " data shall ";
      var obligation := if value.None? then "be provided" else "be " + Extract(value.value) + " and";
      var subject := if value.None? then "Elements with " + bn + " data" else "Elements with " + bn + " data of " + Extract(value.value);
      var requirement := head + obligation + dataset;
      var prohibited := bn + " data shall not " + obligation + dataset;
      assert requirement == head + (obligation + dataset);
      assert prohibited == bn + " data shall not " + (obligation + dataset);
      AppendEnds(subject, dataset);
      AppendEnds(head + obligation, dataset);
      AppendEnds(bn + " data shall not " + obligation, dataset);
      Ok(Property(propertySet.value, baseName.value, value, dataType, uri, c, instructions, subject + dataset, requirement, prohibited))
  }

  lemma AppendEnds(a: string, b: string)
    ensures EndsWith(a + b, b) && StartsWith(a + b, a) && (a + b)[|a|..] == b
  {
    assert (a + b)[|a + b| - |b|..] == b;
    assert (a + b)[..|a|] == a;
  }

  // ---------------------------------------------------------------- filter

  /** The root classes whose instances are candidates: IFC2X3 has no materials or profiles to ask. */
  function Roots(m: Model): (r: seq<string>)
    ensures |r| > 0 && r[0] == "IfcObjectDefinition"
    ensures Contains(Upper(m.schema), "IFC2X3") <==> |r| == 1
  {
    if Contains(Upper(m.schema), "IFC2X3") then ["IfcObjectDefinition"]
    else ["IfcObjectDefinition", "IfcMaterialDefinition", "IfcProfileDef"]
  }

  /** The instances of each root the schema declares, in root order, each once. */
  function CollectRoots(m: Model, roots: seq<string>, acc: seq<Oid>): seq<Oid>
    decreases roots
  {
    if roots == [] then acc
    else CollectRoots(m, roots[1..], if HasClass(m, roots[0]) then AddUnseen(acc, AllWithSubTypes(m, roots[0], m.oids)) else acc)
  }

  function FilterSpec(m: Model): seq<Oid> {
    CollectRoots(m, Roots(m), [])
  }

  lemma {:induction false} CollectRootsSpec(m: Model, roots: seq<string>, acc: seq<Oid>)
    requires Distinct(acc)
    ensures var r := CollectRoots(m, roots, acc);
      Distinct(r)
      && forall x :: x in r <==> (x in acc
        || (x in m.oids && x in m.objects && exists i :: 0 <= i < |roots| && HasClass(m, roots[i]) && IsA(m, x, roots[i])))
    decreases roots
  {
    if roots != [] {
      var found := if HasClass(m, roots[0]) then AllWithSubTypes(m, roots[0], m.oids) else [];
      var next := if HasClass(m, roots[0]) then AddUnseen(acc, found) else acc;
      AddUnseenSpec(acc, found);
      CollectRootsSpec(m, roots[1..], next);
      var r := CollectRoots(m, roots, acc);
      forall x | x in r
        ensures x in acc || (x in m.oids && x in m.objects && exists i :: 0 <= i < |roots| && HasClass(m, roots[i]) && IsA(m, x, roots[i]))
      {
        if x !in acc && x !in found {
          var i :| 0 <= i < |roots[1..]| && HasClass(m, roots[1..][i]) && IsA(m, x, roots[1..][i]);
          assert roots[1..][i] == roots[i + 1];
        }
      }
      forall x | x in m.oids && x in m.objects && exists i :: 0 <= i < |roots| && HasClass(m, roots[i]) && IsA(m, x, roots[i])
        ensures x in r
      {
        var i :| 0 <= i < |roots| && HasClass(m, roots[i]) && IsA(m, x, roots[i]);
        if i > 0 {
          assert roots[i] == roots[1..][i - 1];
        }
      }
    }
  }

  /** `filter` yields, each once, every instance of a root class the schema declares. */
  lemma FilterSpecProperties(m: Model)
    ensures Distinct(FilterSpec(m))
    ensures forall x :: x in FilterSpec(m) <==>
      (x in m.oids && x in m.objects && exists i :: 0 <= i < |Roots(m)| && HasClass(m, Roots(m)[i]) && IsA(m, x, Roots(m)[i]))
  {
    CollectRootsSpec(m, Roots(m), []);
  }

  /** Under an IFC2X3 schema only object definitions are candidates. */
  lemma Ifc2x3OnlyObjectDefinitions(m: Model)
    requires Contains(Upper(m.schema), "IFC2X3")
    ensures forall x :: x in FilterSpec(m) ==> x in m.objects && IsA(m, x, "IfcObjectDefinition")
  {
    FilterSpecProperties(m);
  }

  method Filter(m: Model) returns (results: seq<Oid>)
    ensures results == FilterSpec(m)
  {
    results := [];
    var seen: set<Oid> := {};
    var roots := Roots(m);
    var k := 0;
    while k < |roots|
      invariant 0 <= k <= |roots|
      invariant CollectRoots(m, roots[k..], results) == FilterSpec(m)
      invariant forall x :: x in seen <==> x in results
    {
      assert roots[k..][1..] == roots[k + 1..];
      if HasClass(m, roots[k]) {
        var found := AllWithSubTypes(m, roots[k], m.oids);
        ghost var before := results;
        var j := 0;
        while j < |found|
          invariant 0 <= j <= |found|
          invariant AddUnseen(results, found[j..]) == AddUnseen(before, found)
          invariant forall x :: x in seen <==> x in results
        {
          assert found[j..][1..] == found[j + 1..];
          assert found[j..][0] == found[j];
          if found[j] !in seen {
            seen := seen + {found[j]};
            results := results + [found[j]];
          }
          j := j + 1;
        }
      }
      k := k + 1;
    }
  }

  // ---------------------------------------------------------------- getPset

  /** A named property set whose name the pattern matches. */
  function NamedMatch(test: TextTest, m: Model, ps: Oid): (r: Outcome<Option<Oid>>)
    requires ps in m.objects
    ensures r.Ok? && r.value.Some? <==>
      GetString(m, ps, "Name").Some? && test(GetString(m, ps, "Name").value) == Ok(true)
    ensures r.Ok? && r.value.Some? ==> r.value.value == ps
  {
    var name := GetString(m, ps, "Name");
    if name.None? then Ok(None)
    else
      var hit :- test(name.value);
      Ok(if hit then Some(ps) else None)
  }

  /** The property set a relation of the element defines, when it is one the pattern names. */
  function DirectHit(test: TextTest, m: Model, rel: Oid): (r: Outcome<Option<Oid>>)
    requires rel in m.objects
    ensures r.Ok? && r.value.Some? ==> (r.value.value in m.objects && ClassOf(m, r.value.value) == "IfcPropertySet"
      && ClassOf(m, rel) == "IfcRelDefinesByProperties" && GetObject(m, rel, "RelatingPropertyDefinition") == r.value)
  {
    var pdef := GetObject(m, rel, "RelatingPropertyDefinition");
    if ClassOf(m, rel) != "IfcRelDefinesByProperties" || pdef.None? || ClassOf(m, pdef.value) != "IfcPropertySet" then Ok(None)
    else NamedMatch(test, m, pdef.value)
  }

  /** The property set a type lists, when it is one the pattern names. */
  function TypeHit(test: TextTest, m: Model, ps: Oid): (r: Outcome<Option<Oid>>)
    requires ps in m.objects
    ensures r.Ok? && r.value.Some? ==> r.value.value == ps && ClassOf(m, ps) == "IfcPropertySet"
  {
    if ClassOf(m, ps) != "IfcPropertySet" then Ok(None) else NamedMatch(test, m, ps)
  }

  /** The first direct relation that hits; every relation before it is read as an object. */
  function FirstDirect(test: TextTest, m: Model, rels: seq<Val>): (r: Outcome<Option<Oid>>)
    ensures r.Ok? && r.value.Some? ==> r.value.value in m.objects
    decreases rels
  {
    if rels == [] then Ok(None)
    else
      var rel :- AsObject(m, rels[0]);
      var hit :- DirectHit(test, m, rel);
      if hit.Some? then Ok(hit) else FirstDirect(test, m, rels[1..])
  }

  /** The first `k` relations are objects whose relation misses. */
  predicate Misses(test: TextTest, m: Model, rels: seq<Val>, k: nat)
    requires k <= |rels|
  {
    forall j :: 0 <= j < k ==> Live(m, rels[j]) && DirectHit(test, m, rels[j].oid) == Ok(None)
  }

  lemma MissesShift(test: TextTest, m: Model, rels: seq<Val>, k: nat)
    requires 0 < |rels| && k < |rels|
    requires Live(m, rels[0]) && DirectHit(test, m, rels[0].oid) == Ok(None)
    requires Misses(test, m, rels[1..], k)
    ensures Misses(test, m, rels, k + 1)
  {
    forall j | 0 < j < k + 1
      ensures Live(m, rels[j]) && DirectHit(test, m, rels[j].oid) == Ok(None)
    {
      assert rels[j] == rels[1..][j - 1];
    }
  }

  /** A hit of the direct search comes from the first relation that hits; all before it miss. */
  lemma {:induction false} FirstDirectFound(test: TextTest, m: Model, rels: seq<Val>)
    ensures var r := FirstDirect(test, m, rels);
      r.Ok? && r.value.Some? ==>
        (exists i :: 0 <= i < |rels| && Live(m, rels[i])
           && DirectHit(test, m, rels[i].oid) == r && Misses(test, m, rels, i))
    decreases rels
  {
    if rels != [] && Live(m, rels[0]) {
      var hit := DirectHit(test, m, rels[0].oid);
      var r := FirstDirect(test, m, rels);
      if hit.Ok? && hit.value.Some? {
        assert Misses(test, m, rels, 0);
      } else if hit == Ok(None) {
        FirstDirectFound(test, m, rels[1..]);
        assert r == FirstDirect(test, m, rels[1..]);
        if r.Ok? && r.value.Some? {
          var i :| 0 <= i < |rels[1..]| && Live(m, rels[1..][i]) && DirectHit(test, m, rels[1..][i].oid) == r
            && Misses(test, m, rels[1..], i);
          MissesShift(test, m, rels, i);
          assert rels[1..][i] == rels[i + 1];
        }
      }
    }
  }

  lemma MissesTail(test: TextTest, m: Model, rels: seq<Val>, k: nat)
    requires 0 < k <= |rels| && Misses(test, m, rels, k)
    ensures Misses(test, m, rels[1..], k - 1)
  {
    forall j | 0 <= j < k - 1
      ensures Live(m, rels[1..][j]) && DirectHit(test, m, rels[1..][j].oid) == Ok(None)
    {
      assert rels[1..][j] == rels[j + 1];
    }
  }

  /** A search that finds nothing read every relation as an object, and every one missed. */
  lemma {:induction false} FirstDirectNone(test: TextTest, m: Model, rels: seq<Val>)
    ensures FirstDirect(test, m, rels) == Ok(None) ==> Misses(test, m, rels, |rels|)
    decreases rels
  {
    if rels != [] && Live(m, rels[0]) {
      var hit := DirectHit(test, m, rels[0].oid);
      if hit == Ok(None) {
        FirstDirectNone(test, m, rels[1..]);
        if FirstDirect(test, m, rels[1..]) == Ok(None) {
          MissesShift(test, m, rels, |rels| - 1);
        }
      }
    }
  }

  /** The first property set of one type that hits. */
  function FirstInType(test: TextTest, m: Model, psets: seq<Val>): (r: Outcome<Option<Oid>>)
    ensures r.Ok? && r.value.Some? ==> r.value.value in m.objects && ClassOf(m, r.value.value) == "IfcPropertySet"
    decreases psets
  {
    if psets == [] then Ok(None)
    else
      var ps :- AsObject(m, psets[0]);
      var hit :- TypeHit(test, m, ps);
      if hit.Some? then Ok(hit) else FirstInType(test, m, psets[1..])
  }

  /** The first property set of the element's types that hits. */
  function FirstTyped(test: TextTest, m: Model, typeRels: seq<Val>): (r: Outcome<Option<Oid>>)
    ensures r.Ok? && r.value.Some? ==> r.value.value in m.objects && ClassOf(m, r.value.value) == "IfcPropertySet"
    decreases typeRels
  {
    if typeRels == [] then Ok(None)
    else
      var rel :- AsObject(m, typeRels[0]);
      var typeObj := GetObject(m, rel, "RelatingType");
      var psets := if typeObj.None? then None else GetList(m, typeObj.value, "HasPropertySets");
      if ClassOf(m, rel) != "IfcRelDefinesByType" || psets.None? then FirstTyped(test, m, typeRels[1..])
      else
        var hit :- FirstInType(test, m, psets.value);
        if hit.Some? then Ok(hit) else FirstTyped(test, m, typeRels[1..])
  }

  /** The bag of a found property set: its container entry, then its named members. */
  function SetBag(m: Model, ps: Oid): Outcome<Bag>
    requires ps in m.objects
  {
    PutMembers(PropertyCode, m, PropertyMember, [("_entity", Ref(ps))], GetList(m, ps, "HasProperties").GetOr([]))
  }

  /** A found set's bag holds each member's last value and, unless a member takes the key, the set itself. */
  lemma SetBagSpec(m: Model, ps: Oid)
    requires ps in m.objects
    ensures var r := SetBag(m, ps);
      var items := GetList(m, ps, "HasProperties").GetOr([]);
      r.Ok? ==> forall k :: (Lookup(r.value, k) ==
        if Contribution(PropertyCode, m, PropertyMember, items, k).Some? then Contribution(PropertyCode, m, PropertyMember, items, k)
        else if k == "_entity" then Some(Ref(ps)) else None)
  {
    PutMembersSpec(PropertyCode, m, PropertyMember, [("_entity", Ref(ps))], GetList(m, ps, "HasProperties").GetOr([]));
  }

  /** A hit's bag, wrapped as found. */
  function BagOf(m: Model, ps: Oid): Outcome<Option<Bag>>
    requires ps in m.objects
  {
    var bag :- SetBag(m, ps);
    Ok(Some(bag))
  }

  /**
   * `getPset`: the first matching property set defined on the element, else the first on its
   * types, else the material or profile bag named by the pattern's text.
   */
  function GetPsetSpec(pattern: Value, m: Model, e: Oid, rx: RestrictionValues.Regex): Outcome<Option<Bag>>
    requires e in m.objects
  {
    var direct :- FirstDirect(ValueTest(pattern, rx), m, GetList(m, e, "IsDefinedBy").GetOr([]));
    if direct.Some? then BagOf(m, direct.value)
    else
      var typed :- FirstTyped(ValueTest(pattern, rx), m, GetList(m, e, "IsTypedBy").GetOr([]));
      if typed.Some? then BagOf(m, typed.value)
      else
        var bags :- Associations(PropertyCode, m, e, []);
        Ok(Lookup(bags, Extract(pattern)))
  }

  /** A hit on the element itself wins over anything its types or materials hold. */
  lemma DirectSetWins(pattern: Value, m: Model, e: Oid, rx: RestrictionValues.Regex, i: nat)
    requires e in m.objects && GetList(m, e, "IsDefinedBy").Some?
    requires var rels := GetList(m, e, "IsDefinedBy").value;
      i < |rels| && Live(m, rels[i]) && DirectHit(ValueTest(pattern, rx), m, rels[i].oid).Ok? && DirectHit(ValueTest(pattern, rx), m, rels[i].oid).value.Some?
      && forall j :: 0 <= j < i ==> Live(m, rels[j]) && DirectHit(ValueTest(pattern, rx), m, rels[j].oid) == Ok(None)
    ensures GetPsetSpec(pattern, m, e, rx) == BagOf(m, DirectHit(ValueTest(pattern, rx), m, GetList(m, e, "IsDefinedBy").value[i].oid).value.value)
  {
    var rels := GetList(m, e, "IsDefinedBy").value;
    assert Misses(ValueTest(pattern, rx), m, rels, i);
    FirstDirectAt(ValueTest(pattern, rx), m, rels, i);
  }

  lemma {:induction false} FirstDirectAt(test: TextTest, m: Model, rels: seq<Val>, i: nat)
    requires i < |rels| && Live(m, rels[i]) && DirectHit(test, m, rels[i].oid).Ok? && DirectHit(test, m, rels[i].oid).value.Some?
    requires Misses(test, m, rels, i)
    ensures FirstDirect(test, m, rels) == DirectHit(test, m, rels[i].oid)
    decreases i
  {
    if i > 0 {
      MissesTail(test, m, rels, i);
      assert rels[1..][i - 1] == rels[i];
      FirstDirectAt(test, m, rels[1..], i - 1);
      FirstDirectSkip(test, m, rels);
    } else {
      FirstDirectHere(test, m, rels);
    }
  }

  /** A first relation that hits decides the search. */
  lemma FirstDirectHere(test: TextTest, m: Model, rels: seq<Val>)
    requires rels != [] && Live(m, rels[0])
    requires DirectHit(test, m, rels[0].oid).Ok? && DirectHit(test, m, rels[0].oid).value.Some?
    ensures FirstDirect(test, m, rels) == DirectHit(test, m, rels[0].oid)
  {
  }

  /** A first relation that misses passes the search on to the rest. */
  lemma FirstDirectSkip(test: TextTest, m: Model, rels: seq<Val>)
    requires rels != [] && Live(m, rels[0]) && DirectHit(test, m, rels[0].oid) == Ok(None)
    ensures FirstDirect(test, m, rels) == FirstDirect(test, m, rels[1..])
  {
  }

  /** With no matching set on the element or its types, the materials' bag of that name decides. */
  lemma MaterialsDecideLast(pattern: Value, m: Model, e: Oid, rx: RestrictionValues.Regex)
    requires e in m.objects
    requires FirstDirect(ValueTest(pattern, rx), m, GetList(m, e, "IsDefinedBy").GetOr([])) == Ok(None)
    requires FirstTyped(ValueTest(pattern, rx), m, GetList(m, e, "IsTypedBy").GetOr([])) == Ok(None)
    ensures var bags := Associations(PropertyCode, m, e, []);
      GetPsetSpec(pattern, m, e, rx) == if bags.Ok? then Ok(Lookup(bags.value, Extract(pattern))) else bags.PropagateFailure()
  {}

  /** An element quantity defined on the element is never the found set. */
  lemma QuantitiesNotFoundDirectly(test: TextTest, m: Model, rel: Oid)
    requires rel in m.objects
    requires var q := GetObject(m, rel, "RelatingPropertyDefinition"); q.Some? && ClassOf(m, q.value) == "IfcElementQuantity"
    ensures DirectHit(test, m, rel) == Ok(None)
  {}

  // ---------------------------------------------------------------- matches

  function Req(f: Property, rx: RestrictionValues.Regex): (req: Requirement)
    ensures req.variant == PropertyCode && req.baseName == Some(f.baseName)
    ensures req.value == f.value && req.dataType == f.dataType && req.rx == rx
  {
    Requirement(PropertyCode, Some(f.baseName), f.value, f.dataType, rx)
  }

  /** The containers `matches` checks: the one set a simple name finds, or every bag a pattern matches. */
  function PsetsOf(f: Property, m: Model, e: Oid, rx: RestrictionValues.Regex): Outcome<Bags>
    requires e in m.objects
  {
    if f.propertySet.Simple? then
      var one :- GetPsetSpec(f.propertySet, m, e, rx);
      Ok(if one.Some? then [(Extract(f.propertySet), one.value)] else [])
    else
      var all :- PsetsSpec(PropertyCode, m, e);
      FilterPsets(ValueTest(f.propertySet, rx), all)
  }

  function MatchesSpec(f: Property, m: Model, e: Oid, rx: RestrictionValues.Regex): Outcome<FacetResult>
    requires e in m.objects
  {
    var psets :- PsetsOf(f, m, e, rx);
    CheckPsets(Req(f, rx), f.cardinality, m, psets)
  }

  /** A simple set name yields at most one container, under that name. */
  lemma SimpleNameOneContainer(f: Property, m: Model, e: Oid, rx: RestrictionValues.Regex)
    requires e in m.objects && f.propertySet.Simple?
    ensures var p := PsetsOf(f, m, e, rx);
      p.Ok? ==> |p.value| <= 1 && forall i :: 0 <= i < |p.value| ==> p.value[i].0 == Extract(f.propertySet)
  {}

  /** A set pattern yields exactly the element's bags whose name it matches. */
  lemma PatternSelectsBags(f: Property, m: Model, e: Oid, rx: RestrictionValues.Regex)
    requires e in m.objects && f.propertySet.Restricted?
    requires PsetsSpec(PropertyCode, m, e).Ok?
    ensures var p := PsetsOf(f, m, e, rx);
      var all := PsetsSpec(PropertyCode, m, e).value;
      p.Ok? ==> forall b :: b in p.value <==> b in all && Values.Matches(f.propertySet, Some(b.0), rx) == Ok(true)
  {
    FilterPsetsSpec(ValueTest(f.propertySet, rx), PsetsSpec(PropertyCode, m, e).value);
  }

  /** A set the element does not carry: an optional facet passes, a required one fails with NOPSET. */
  lemma MissingSetVerdict(f: Property, m: Model, e: Oid, rx: RestrictionValues.Regex)
    requires e in m.objects && f.propertySet.Simple?
    requires GetPsetSpec(f.propertySet, m, e, rx) == Ok(None)
    ensures f.cardinality == OPTIONAL ==> MatchesSpec(f, m, e, rx) == Ok(FacetResult(true, Some(map[])))
    ensures f.cardinality == REQUIRED ==> MatchesSpec(f, m, e, rx) == Ok(FacetResult(false, Some(Tagged("NOPSET"))))
    ensures f.cardinality == PROHIBITED ==> MatchesSpec(f, m, e, rx) == Ok(FacetResult(true, Some(Tagged("PROHIBITED"))))
  {
    NoContainer(Req(f, rx), m);
  }

  /** The member loop of a found set. */
  method FillBag(m: Model, ps: Oid) returns (r: Outcome<Bag>)
    requires ps in m.objects
    ensures r == SetBag(m, ps)
  {
    var bag: Bag := [("_entity", Ref(ps))];
    var props := GetList(m, ps, "HasProperties").GetOr([]);
    var i := 0;
    while i < |props|
      invariant 0 <= i <= |props|
      invariant PutMembers(PropertyCode, m, PropertyMember, bag, props[i..]) == SetBag(m, ps)
    {
      assert props[i..][1..] == props[i + 1..];
      var prop :- AsObject(m, props[i]);
      var pn := GetString(m, prop, "Name");
      if pn.Some? {
        bag := Put(bag, pn.value, ExtractPropertyValue(PropertyCode, m, prop));
      }
      i := i + 1;
    }
    r := Ok(bag);
  }

  /** The loop over the element's own relations. */
  method FindDirect(test: TextTest, m: Model, rels: seq<Val>) returns (r: Outcome<Option<Oid>>)
    ensures r == FirstDirect(test, m, rels)
  {
    var i := 0;
    while i < |rels|
      invariant 0 <= i <= |rels|
      invariant FirstDirect(test, m, rels[i..]) == FirstDirect(test, m, rels)
    {
      assert rels[i..][1..] == rels[i + 1..];
      var rel :- AsObject(m, rels[i]);
      var hit :- DirectHit(test, m, rel);
      if hit.Some? {
        return Ok(hit);
      }
      i := i + 1;
    }
    r := Ok(None);
  }

  /** The loop over one type's property sets. */
  method FindInType(test: TextTest, m: Model, items: seq<Val>) returns (r: Outcome<Option<Oid>>)
    ensures r == FirstInType(test, m, items)
  {
    var j := 0;
    while j < |items|
      invariant 0 <= j <= |items|
      invariant FirstInType(test, m, items[j..]) == FirstInType(test, m, items)
    {
      assert items[j..][1..] == items[j + 1..];
      var ps :- AsObject(m, items[j]);
      var hit :- TypeHit(test, m, ps);
      if hit.Some? {
        return Ok(hit);
      }
      j := j + 1;
    }
    r := Ok(None);
  }

  /** The loop over the element's type relations and each type's property sets. */
  method FindTyped(test: TextTest, m: Model, typeRels: seq<Val>) returns (r: Outcome<Option<Oid>>)
    ensures r == FirstTyped(test, m, typeRels)
  {
    var i := 0;
    while i < |typeRels|
      invariant 0 <= i <= |typeRels|
      invariant FirstTyped(test, m, typeRels[i..]) == FirstTyped(test, m, typeRels)
    {
      assert typeRels[i..][1..] == typeRels[i + 1..];
      var rel :- AsObject(m, typeRels[i]);
      var typeObj := GetObject(m, rel, "RelatingType");
      var psets := if typeObj.None? then None else GetList(m, typeObj.value, "HasPropertySets");
      if ClassOf(m, rel) == "IfcRelDefinesByType" && psets.Some? {
        var hit :- FindInType(test, m, psets.value);
        if hit.Some? {
          return Ok(hit);
        }
      }
      i := i + 1;
    }
    r := Ok(None);
  }

  method GetPset(pattern: Value, m: Model, e: Oid, rx: RestrictionValues.Regex) returns (r: Outcome<Option<Bag>>)
    requires e in m.objects
    ensures r == GetPsetSpec(pattern, m, e, rx)
  {
    var direct :- FindDirect(ValueTest(pattern, rx), m, GetList(m, e, "IsDefinedBy").GetOr([]));
    if direct.Some? {
      var bag :- FillBag(m, direct.value);
      return Ok(Some(bag));
    }
    var typed :- FindTyped(ValueTest(pattern, rx), m, GetList(m, e, "IsTypedBy").GetOr([]));
    if typed.Some? {
      var bag :- FillBag(m, typed.value);
      return Ok(Some(bag));
    }
    var tmp := new PsetCollector(PropertyCode);
    var done := tmp.VisitAssociations(m, e);
    if !done.Ok? {
      return done.PropagateFailure();
    }
    r := Ok(Lookup(tmp.bags, Extract(pattern)));
  }

  method Matches(f: Property, m: Model, e: Oid, rx: RestrictionValues.Regex) returns (r: Outcome<FacetResult>)
    requires e in m.objects
    ensures r == MatchesSpec(f, m, e, rx)
  {
    var psets: Bags;
    if f.propertySet.Simple? {
      var one :- GetPset(f.propertySet, m, e, rx);
      psets := if one.Some? then [(Extract(f.propertySet), one.value)] else [];
    } else {
      var collector := new PsetCollector(PropertyCode);
      var all := collector.CollectPsets(m, e);
      if !all.Ok? {
        return all.PropagateFailure();
      }
      psets :- SelectPsets(ValueTest(f.propertySet, rx), collector.bags);
    }
    r := Evaluate(Req(f, rx), f.cardinality, m, psets);
  }
}
