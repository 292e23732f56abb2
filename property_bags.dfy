/**
 * Property bags: the containers an element carries (property sets, element quantities, and the
 * property sets of its materials and profiles), each turned into a bag of member values keyed by
 * container name. Containers of the same name merge into one bag: later members overwrite
 * earlier ones, and the container entry names the container merged last.
 */
module PropertyBags {
  import opened Wrappers
  import opened JavaStrings
  import opened IfcModel
  import opened OrderedMaps
  import opened PropertyValues

  /** Container name to bag, in first-seen order. */
  type Bags = Entries<Bag>

  /** What a container's members contribute: property values, quantity numbers, or nominal values. */
  datatype MemberKind = PropertyMember | QuantityMember | ExtendedMember

  /** The feature listing a container's members. */
  function MemberList(kind: MemberKind): string {
    match kind
    case PropertyMember => "HasProperties"
    case QuantityMember => "Quantities"
    case ExtendedMember => "Properties"
  }

  /**
   * The value a named member puts into its bag; a quantity with no number puts nothing, and an
   * extended property without a nominal value feature cannot be read.
   */
  function MemberValue(variant: Variant, m: Model, kind: MemberKind, o: Oid): (r: Outcome<Option<Val>>)
    requires o in m.objects
    ensures kind != ExtendedMember ==> r.Ok?
    ensures kind == PropertyMember ==> r == Ok(Some(ExtractPropertyValue(variant, m, o)))
    ensures kind == QuantityMember ==> (r.value.None? <==> IsNull(m, QuantityNumber(m, o)))
    ensures kind == ExtendedMember ==> (r.Ok? <==> "NominalValue" in m.objects[o].features)
  {
    match kind
    case PropertyMember => Ok(Some(ExtractPropertyValue(variant, m, o)))
    case QuantityMember =>
      var n := QuantityNumber(m, o);
      if IsNull(m, n) then Ok(None) else Ok(Some(UnwrapIfValue(variant, m, n)))
    case ExtendedMember =>
      var nv :- EGet(m, o, "NominalValue");
      Ok(Some(if Live(m, nv) then UnwrapIfcValue(variant, m, nv.oid) else if IsNull(m, nv) then Null else nv))
  }

  /** The member loop: each member is read as an object, and a named one puts its value. */
  function PutMembers(variant: Variant, m: Model, kind: MemberKind, bag: Bag, items: seq<Val>): Outcome<Bag>
    decreases items
  {
    if items == [] then Ok(bag)
    else
      var o :- AsObject(m, items[0]);
      var name := GetString(m, o, "Name");
      if name.None? then PutMembers(variant, m, kind, bag, items[1..])
      else
        var v :- MemberValue(variant, m, kind, o);
        PutMembers(variant, m, kind, if v.Some? then Put(bag, name.value, v.value) else bag, items[1..])
  }

  /**
   * The value the last member named `k` contributes, if any member does: the independent reading
   * of "later members overwrite earlier ones".
   */
  function Contribution(variant: Variant, m: Model, kind: MemberKind, items: seq<Val>, k: string): Option<Val>
    decreases items
  {
    if items == [] then None
    else
      var rest := Contribution(variant, m, kind, items[1..], k);
      if rest.Some? then rest
      else if Live(m, items[0]) && GetString(m, items[0].oid, "Name") == Some(k) then
        var v := MemberValue(variant, m, kind, items[0].oid);
        if v.Ok? then v.value else None
      else None
  }

  /** After the member loop, a key holds the last value contributed under it, else its old value. */
  lemma {:induction false} PutMembersSpec(variant: Variant, m: Model, kind: MemberKind, bag: Bag, items: seq<Val>)
    ensures var r := PutMembers(variant, m, kind, bag, items);
      r.Ok? ==> forall k :: (Lookup(r.value, k) ==
        if Contribution(variant, m, kind, items, k).Some? then Contribution(variant, m, kind, items, k) else Lookup(bag, k))
    decreases items
  {
    if items != [] && Live(m, items[0]) {
      var o := items[0].oid;
      var name := GetString(m, o, "Name");
      if name.None? {
        PutMembersSpec(variant, m, kind, bag, items[1..]);
      } else {
        var v := MemberValue(variant, m, kind, o);
        if v.Ok? {
          var next := if v.value.Some? then Put(bag, name.value, v.value.value) else bag;
          PutMembersSpec(variant, m, kind, next, items[1..]);
          if v.value.Some? {
            PutLookup(bag, name.value, v.value.value);
          }
          var r := PutMembers(variant, m, kind, bag, items);
          if r.Ok? {
            assert r == PutMembers(variant, m, kind, next, items[1..]);
            forall k
              ensures Lookup(r.value, k) == if Contribution(variant, m, kind, items, k).Some?
                                            then Contribution(variant, m, kind, items, k) else Lookup(bag, k)
            {
              var rest := Contribution(variant, m, kind, items[1..], k);
              if rest.None? && k == name.value && v.value.Some? {
                assert Contribution(variant, m, kind, items, k) == v.value;
              }
            }
          }
        }
      }
    }
  }

  /** The member loop succeeds exactly when every member is an object and every named value reads. */
  lemma {:induction false} PutMembersFails(variant: Variant, m: Model, kind: MemberKind, bag: Bag, items: seq<Val>)
    requires exists i :: 0 <= i < |items| && !Live(m, items[i])
    ensures !PutMembers(variant, m, kind, bag, items).Ok?
    decreases items
  {
    if Live(m, items[0]) {
      var i :| 0 <= i < |items| && !Live(m, items[i]);
      assert items[1..][i - 1] == items[i];
      var o := items[0].oid;
      var name := GetString(m, o, "Name");
      if name.None? {
        PutMembersFails(variant, m, kind, bag, items[1..]);
      } else {
        var v := MemberValue(variant, m, kind, o);
        if v.Ok? {
          PutMembersFails(variant, m, kind, if v.value.Some? then Put(bag, name.value, v.value.value) else bag, items[1..]);
        }
      }
    }
  }

  /**
   * `mergePropertySet` / `mergeElementQuantity` / `mergeExtendedProperties`: an unnamed container
   * is ignored; otherwise its bag (created if absent) records the container, then its members.
   */
  function ContainerMerged(variant: Variant, m: Model, bags: Bags, c: Oid, kind: MemberKind): (r: Outcome<Bags>)
    requires c in m.objects
    ensures GetString(m, c, "Name").None? ==> r == Ok(bags)
  {
    var name := GetString(m, c, "Name");
    if name.None? then Ok(bags)
    else
      var bag0 := Put(Lookup(bags, name.value).GetOr([]), CarrierKey(variant), CarrierVal(variant, c));
      var list := GetList(m, c, MemberList(kind));
      if list.None? then Ok(Put(bags, name.value, bag0))
      else
        var bag :- PutMembers(variant, m, kind, bag0, list.value);
        Ok(Put(bags, name.value, bag))
  }

  /**
   * A merge touches only the bag of the container's name. In it, the container entry names this
   * container (unless a member is itself named like that entry), each member name holds the last
   * value contributed, and every other entry of a same-named earlier bag survives.
   */
  lemma ContainerMergedSpec(variant: Variant, m: Model, bags: Bags, c: Oid, kind: MemberKind)
    requires c in m.objects
    requires GetString(m, c, "Name").Some?
    ensures var r := ContainerMerged(variant, m, bags, c, kind);
      var name := GetString(m, c, "Name").value;
      var items := GetList(m, c, MemberList(kind)).GetOr([]);
      r.Ok? ==>
        (forall n :: n != name ==> Lookup(r.value, n) == Lookup(bags, n))
        && Lookup(r.value, name).Some?
        && (forall k :: (Lookup(Lookup(r.value, name).value, k) ==
          if Contribution(variant, m, kind, items, k).Some? then Contribution(variant, m, kind, items, k)
          else if k == CarrierKey(variant) then Some(CarrierVal(variant, c))
          else Lookup(Lookup(bags, name).GetOr([]), k)))
  {
    var name := GetString(m, c, "Name").value;
    var old0 := Lookup(bags, name).GetOr([]);
    var bag0 := Put(old0, CarrierKey(variant), CarrierVal(variant, c));
    PutLookup(old0, CarrierKey(variant), CarrierVal(variant, c));
    var list := GetList(m, c, MemberList(kind));
    if list.None? {
      PutLookup(bags, name, bag0);
    } else {
      PutMembersSpec(variant, m, kind, bag0, list.value);
      var bag := PutMembers(variant, m, kind, bag0, list.value);
      if bag.Ok? {
        PutLookup(bags, name, bag.value);
      }
    }
  }

  /** Merging one container per class: property sets and element quantities; others are ignored. */
  function DefinitionMerged(variant: Variant, m: Model, bags: Bags, c: Oid): Outcome<Bags>
    requires c in m.objects
  {
    if ClassOf(m, c) == "IfcPropertySet" then ContainerMerged(variant, m, bags, c, PropertyMember)
    else if ClassOf(m, c) == "IfcElementQuantity" then ContainerMerged(variant, m, bags, c, QuantityMember)
    else Ok(bags)
  }

  /** The loop of `mergeCarrierPsets` over a material's or profile's property containers. */
  function MergeCarrierItems(variant: Variant, m: Model, bags: Bags, items: seq<Val>): Outcome<Bags>
    decreases items
  {
    if items == [] then Ok(bags)
    else
      var mp :- AsObject(m, items[0]);
      var next :-
        if ClassOf(m, mp) == "IfcExtendedProperties" then ContainerMerged(variant, m, bags, mp, ExtendedMember)
        else if ClassOf(m, mp) == "IfcPropertySet" then ContainerMerged(variant, m, bags, mp, PropertyMember)
        else Ok(bags);
      MergeCarrierItems(variant, m, next, items[1..])
  }

  /** `mergeCarrierPsets`: the sink that every material and profile reached is handed to. */
  function CarrierMerged(variant: Variant, m: Model, bags: Bags, carrier: Option<Oid>): Outcome<Bags>
    requires carrier.Some? ==> carrier.value in m.objects
  {
    if carrier.None? then Ok(bags)
    else
      var mprops := GetList(m, carrier.value, "HasProperties");
      if mprops.None? then Ok(bags) else MergeCarrierItems(variant, m, bags, mprops.value)
  }

  // ---------------------------------------------------------------- materials and profiles

  /** The member list of a material set class. */
  function SetMembers(t: string): string {
    if t == "IfcMaterialLayerSet" then "MaterialLayers"
    else if t == "IfcMaterialConstituentSet" then "Constituents"
    else "MaterialProfiles"
  }

  /**
   * `forEachMaterialDefinition` from material select `o`, with every material reached handed to
   * the sink. `path` holds the selects being expanded around this one: the expansion of a select
   * depends only on the select, so meeting one of them again is a recursion without a base
   * case, which in Java ends in a `StackOverflowError`; the model reports it as `Diverges`.
   */
  function Visit(variant: Variant, m: Model, o: Oid, path: set<Oid>, bags: Bags): Outcome<Bags>
    requires o in m.objects && path <= m.objects.Keys
    decreases m.objects.Keys - path, 1
  {
    if o in path then Diverges
    else
      var t := ClassOf(m, o);
      if t == "IfcMaterial" then CarrierMerged(variant, m, bags, Some(o))
      else if t == "IfcMaterialList" then
        var mats := GetList(m, o, "Materials");
        if mats.None? then Ok(bags) else SinkAll(variant, m, mats.value, bags)
      else if t == "IfcMaterialLayer" || t == "IfcMaterialConstituent" || t == "IfcMaterialProfile" then
        CarrierMerged(variant, m, bags, GetObject(m, o, "Material"))
      else if t == "IfcMaterialLayerSet" || t == "IfcMaterialConstituentSet" || t == "IfcMaterialProfileSet" then
        var items := GetList(m, o, SetMembers(t));
        if items.None? then Ok(bags) else VisitAll(variant, m, items.value, path + {o}, bags)
      else if t == "IfcMaterialLayerSetUsage" || t == "IfcMaterialProfileSetUsage" then
        var next := GetObject(m, o, if t == "IfcMaterialLayerSetUsage" then "ForLayerSet" else "ForProfileSet");
        if next.None? then Ok(bags) else Visit(variant, m, next.value, path + {o}, bags)
      else Ok(bags)
  }

  /** The members of a set, each expanded in turn; a null member is skipped. */
  function VisitAll(variant: Variant, m: Model, items: seq<Val>, path: set<Oid>, bags: Bags): Outcome<Bags>
    requires path <= m.objects.Keys
    decreases m.objects.Keys - path, 2, |items|
  {
    if items == [] then Ok(bags)
    else
      var member :- AsCarrier(m, items[0]);
      var next :- if member.None? then Ok(bags) else Visit(variant, m, member.value, path, bags);
      VisitAll(variant, m, items[1..], path, next)
  }

  /** The materials of a material list, each handed to the sink (a null one is a no-op there). */
  function SinkAll(variant: Variant, m: Model, items: seq<Val>, bags: Bags): Outcome<Bags>
    decreases items
  {
    if items == [] then Ok(bags)
    else
      var mat :- AsCarrier(m, items[0]);
      var next :- CarrierMerged(variant, m, bags, mat);
      SinkAll(variant, m, items[1..], next)
  }

  /**
   * `forEachProfilesViaMaterialSelect`: only a material profile, a profile set and a profile set
   * usage lead to profiles.
   */
  function Profiles(variant: Variant, m: Model, o: Oid, path: set<Oid>, bags: Bags): (r: Outcome<Bags>)
    requires o in m.objects && path <= m.objects.Keys
    ensures o !in path && ClassOf(m, o) !in {"IfcMaterialProfile", "IfcMaterialProfileSet", "IfcMaterialProfileSetUsage"} ==> r == Ok(bags)
    decreases m.objects.Keys - path
  {
    if o in path then Diverges
    else
      var t := ClassOf(m, o);
      if t == "IfcMaterialProfile" then CarrierMerged(variant, m, bags, GetObject(m, o, "Profile"))
      else if t == "IfcMaterialProfileSet" then
        var mps := GetList(m, o, "MaterialProfiles");
        if mps.None? then Ok(bags) else SinkProfiles(variant, m, mps.value, bags)
      else if t == "IfcMaterialProfileSetUsage" then
        var next := GetObject(m, o, "ForProfileSet");
        if next.None? then Ok(bags) else Profiles(variant, m, next.value, path + {o}, bags)
      else Ok(bags)
  }

  /** The profiles of a profile set's members; a null member cannot be read. */
  function SinkProfiles(variant: Variant, m: Model, items: seq<Val>, bags: Bags): Outcome<Bags>
    decreases items
  {
    if items == [] then Ok(bags)
    else
      var mp :- AsObject(m, items[0]);
      var next :- CarrierMerged(variant, m, bags, GetObject(m, mp, "Profile"));
      SinkProfiles(variant, m, items[1..], next)
  }

  /** The loop of `forEachMaterialDefinitionAndProfiles` over an element's associations. */
  function AssociationItems(variant: Variant, m: Model, items: seq<Val>, bags: Bags): Outcome<Bags>
    decreases items
  {
    if items == [] then Ok(bags)
    else
      var rel :- AsObject(m, items[0]);
      var matSel := GetObject(m, rel, "RelatingMaterial");
      if ClassOf(m, rel) != "IfcRelAssociatesMaterial" || matSel.None? then AssociationItems(variant, m, items[1..], bags)
      else
        var withMaterials :- Visit(variant, m, matSel.value, {}, bags);
        var withProfiles :- Profiles(variant, m, matSel.value, {}, withMaterials);
        AssociationItems(variant, m, items[1..], withProfiles)
  }

  function Associations(variant: Variant, m: Model, e: Oid, bags: Bags): Outcome<Bags>
    requires e in m.objects
  {
    var assocs := GetList(m, e, "HasAssociations");
    if assocs.None? then Ok(bags) else AssociationItems(variant, m, assocs.value, bags)
  }

  /** A material reached directly merges its own property sets. */
  lemma MaterialIsSunk(variant: Variant, m: Model, o: Oid, path: set<Oid>, bags: Bags)
    requires o in m.objects && path <= m.objects.Keys && o !in path
    requires ClassOf(m, o) == "IfcMaterial"
    ensures Visit(variant, m, o, path, bags) == CarrierMerged(variant, m, bags, Some(o))
  {}

  /** A usage is expanded as the set it is for. */
  lemma UsageExpandsItsSet(variant: Variant, m: Model, o: Oid, s: Oid, bags: Bags)
    requires o in m.objects && ClassOf(m, o) == "IfcMaterialLayerSetUsage"
    requires GetObject(m, o, "ForLayerSet") == Some(s) && s != o
    ensures Visit(variant, m, o, {}, bags) == Visit(variant, m, s, {o}, bags)
  {
    assert {} + {o} == {o};
  }

  /**
   * A usage that is its own layer set expands itself again and again, until the Java stack
   * overflows.
   */
  lemma SelfUsageOverflowsStack(variant: Variant, m: Model, o: Oid, bags: Bags)
    requires o in m.objects && ClassOf(m, o) == "IfcMaterialLayerSetUsage"
    requires GetObject(m, o, "ForLayerSet") == Some(o)
    ensures Visit(variant, m, o, {}, bags) == Diverges
  {}

  // ---------------------------------------------------------------- getPsets

  /** The element's property definitions: each relation is read as an object. */
  function DefinedByItems(variant: Variant, m: Model, items: seq<Val>, bags: Bags): Outcome<Bags>
    decreases items
  {
    if items == [] then Ok(bags)
    else
      var rel :- AsObject(m, items[0]);
      var pdef := GetObject(m, rel, "RelatingPropertyDefinition");
      var next :-
        if ClassOf(m, rel) != "IfcRelDefinesByProperties" || pdef.None? then Ok(bags)
        else DefinitionMerged(variant, m, bags, pdef.value);
      DefinedByItems(variant, m, items[1..], next)
  }

  /** The property containers a type lists. */
  function TypeSetItems(variant: Variant, m: Model, items: seq<Val>, bags: Bags): Outcome<Bags>
    decreases items
  {
    if items == [] then Ok(bags)
    else
      var ps :- AsObject(m, items[0]);
      var next :- DefinitionMerged(variant, m, bags, ps);
      TypeSetItems(variant, m, items[1..], next)
  }

  /** The element's type relations and, through each type, its property containers. */
  function TypedByItems(variant: Variant, m: Model, items: seq<Val>, bags: Bags): Outcome<Bags>
    decreases items
  {
    if items == [] then Ok(bags)
    else
      var rel :- AsObject(m, items[0]);
      var typeObj := GetObject(m, rel, "RelatingType");
      var psets := if typeObj.None? then None else GetList(m, typeObj.value, "HasPropertySets");
      var next :-
        if ClassOf(m, rel) != "IfcRelDefinesByType" || psets.None? then Ok(bags)
        else TypeSetItems(variant, m, psets.value, bags);
      TypedByItems(variant, m, items[1..], next)
  }

  /**
   * `getPsets`: every bag of the element, from its own property definitions, then its types'
   * property sets, then its materials and profiles.
   */
  function PsetsSpec(variant: Variant, m: Model, e: Oid): Outcome<Bags>
    requires e in m.objects
  {
    var direct :- DefinedByItems(variant, m, GetList(m, e, "IsDefinedBy").GetOr([]), []);
    var typed :- TypedByItems(variant, m, GetList(m, e, "IsTypedBy").GetOr([]), direct);
    Associations(variant, m, e, typed)
  }

  /** An element with no relations and no associations has no bags. */
  lemma NoRelationsNoBags(variant: Variant, m: Model, e: Oid)
    requires e in m.objects
    requires GetList(m, e, "IsDefinedBy").None? && GetList(m, e, "IsTypedBy").None? && GetList(m, e, "HasAssociations").None?
    ensures PsetsSpec(variant, m, e) == Ok([])
  {}

  /** The member loop of a `merge*` method: each named member's value put into the bag. */
  method FillMembers(variant: Variant, m: Model, kind: MemberKind, bag: Bag, items: seq<Val>)
    returns (r: Outcome<Bag>)
    ensures r == PutMembers(variant, m, kind, bag, items)
  {
    var filled := bag;
    var i := 0;
    while i < |items|
      invariant 0 <= i <= |items|
      invariant PutMembers(variant, m, kind, filled, items[i..]) == PutMembers(variant, m, kind, bag, items)
    {
      assert items[i..][1..] == items[i + 1..];
      var o :- AsObject(m, items[i]);
      var pname := GetString(m, o, "Name");
      if pname.Some? {
        var v :- MemberValue(variant, m, kind, o);
        if v.Some? {
          filled := Put(filled, pname.value, v.value);
        }
      }
      i := i + 1;
    }
    return Ok(filled);
  }

  // ---------------------------------------------------------------- the collector

  /** The bag map that `getPsets` and the `merge*` methods grow in place. */
  class PsetCollector {
    var bags: Bags
    const variant: Variant

    constructor (variant: Variant)
      ensures bags == [] && this.variant == variant
    {
      bags := [];
      this.variant := variant;
    }

    /** `r` reports what `spec` computed from the old bags, and the bags are its result. */
    predicate Settled(r: Outcome<()>, spec: Outcome<Bags>)
      reads this
    {
      (r.Ok? <==> spec.Ok?)
      && (spec.Ok? ==> bags == spec.value)
      && (spec.Throws? ==> r == Throws(spec.exn))
      && (spec.Diverges? ==> r.Diverges?)
    }

    method MergeContainer(m: Model, c: Oid, kind: MemberKind) returns (r: Outcome<()>)
      requires c in m.objects
      modifies this
      ensures Settled(r, ContainerMerged(variant, m, old(bags), c, kind))
    {
      var name := GetString(m, c, "Name");
      if name.None? {
        return Ok(());
      }
      var bag := Put(Lookup(bags, name.value).GetOr([]), CarrierKey(variant), CarrierVal(variant, c));
      var list := GetList(m, c, MemberList(kind));
      if list.Some? {
        var filled := FillMembers(variant, m, kind, bag, list.value);
        if !filled.Ok? {
          return filled.PropagateFailure();
        }
        bag := filled.value;
      }
      bags := Put(bags, name.value, bag);
      r := Ok(());
    }

    method MergeDefinition(m: Model, c: Oid) returns (r: Outcome<()>)
      requires c in m.objects
      modifies this
      ensures Settled(r, DefinitionMerged(variant, m, old(bags), c))
    {
      if ClassOf(m, c) == "IfcPropertySet" {
        r := MergeContainer(m, c, PropertyMember);
      } else if ClassOf(m, c) == "IfcElementQuantity" {
        r := MergeContainer(m, c, QuantityMember);
      } else {
        r := Ok(());
      }
    }

    /** `mergeCarrierPsets`. */
    method MergeCarrier(m: Model, carrier: Option<Oid>) returns (r: Outcome<()>)
      requires carrier.Some? ==> carrier.value in m.objects
      modifies this
      ensures Settled(r, CarrierMerged(variant, m, old(bags), carrier))
    {
      if carrier.None? {
        return Ok(());
      }
      var mprops := GetList(m, carrier.value, "HasProperties");
      if mprops.None? {
        return Ok(());
      }
      var items := mprops.value;
      ghost var bags0 := bags;
      var i := 0;
      while i < |items|
        invariant 0 <= i <= |items|
        invariant MergeCarrierItems(variant, m, bags, items[i..]) == MergeCarrierItems(variant, m, bags0, items)
      {
        assert items[i..][1..] == items[i + 1..];
        var mp := AsObject(m, items[i]);
        if !mp.Ok? {
          return mp.PropagateFailure();
        }
        if ClassOf(m, mp.value) == "IfcExtendedProperties" {
          r := MergeContainer(m, mp.value, ExtendedMember);
        } else if ClassOf(m, mp.value) == "IfcPropertySet" {
          r := MergeContainer(m, mp.value, PropertyMember);
        } else {
          r := Ok(());
        }
        if !r.Ok? {
          return r;
        }
        i := i + 1;
      }
      r := Ok(());
    }

    /** `forEachMaterialDefinition` with this collector's merge as the sink. */
    method VisitMaterial(m: Model, o: Oid, path: set<Oid>) returns (r: Outcome<()>)
      requires o in m.objects && path <= m.objects.Keys
      modifies this
      ensures Settled(r, Visit(variant, m, o, path, old(bags)))
      decreases m.objects.Keys - path, 1
    {
      if o in path {
        return Diverges;
      }
      var t := ClassOf(m, o);
      if t == "IfcMaterial" {
        r := MergeCarrier(m, Some(o));
      } else if t == "IfcMaterialList" {
        var mats := GetList(m, o, "Materials");
        if mats.None? {
          return Ok(());
        }
        var items := mats.value;
        ghost var bags0 := bags;
        var i := 0;
        while i < |items|
          invariant 0 <= i <= |items|
          invariant SinkAll(variant, m, items[i..], bags) == SinkAll(variant, m, items, bags0)
        {
          assert items[i..][1..] == items[i + 1..];
          var mat := AsCarrier(m, items[i]);
          if !mat.Ok? {
            return mat.PropagateFailure();
          }
          r := MergeCarrier(m, mat.value);
          if !r.Ok? {
            return r;
          }
          i := i + 1;
        }
        r := Ok(());
      } else if t == "IfcMaterialLayer" || t == "IfcMaterialConstituent" || t == "IfcMaterialProfile" {
        r := MergeCarrier(m, GetObject(m, o, "Material"));
      } else if t == "IfcMaterialLayerSet" || t == "IfcMaterialConstituentSet" || t == "IfcMaterialProfileSet" {
        var members := GetList(m, o, SetMembers(t));
        if members.None? {
          return Ok(());
        }
        var items := members.value;
        ghost var bags0 := bags;
        var i := 0;
        while i < |items|
          invariant 0 <= i <= |items|
          invariant VisitAll(variant, m, items[i..], path + {o}, bags) == VisitAll(variant, m, items, path + {o}, bags0)
        {
          assert items[i..][1..] == items[i + 1..];
          var member := AsCarrier(m, items[i]);
          if !member.Ok? {
            return member.PropagateFailure();
          }
          if member.value.Some? {
            r := VisitMaterial(m, member.value.value, path + {o});
            if !r.Ok? {
              return r;
            }
          }
          i := i + 1;
        }
        r := Ok(());
      } else if t == "IfcMaterialLayerSetUsage" || t == "IfcMaterialProfileSetUsage" {
        var next := GetObject(m, o, if t == "IfcMaterialLayerSetUsage" then "ForLayerSet" else "ForProfileSet");
        if next.None? {
          return Ok(());
        }
        r := VisitMaterial(m, next.value, path + {o});
      } else {
        r := Ok(());
      }
    }

    /** `forEachProfilesViaMaterialSelect` with this collector's merge as the sink. */
    method VisitProfiles(m: Model, o: Oid, path: set<Oid>) returns (r: Outcome<()>)
      requires o in m.objects && path <= m.objects.Keys
      modifies this
      ensures Settled(r, Profiles(variant, m, o, path, old(bags)))
      decreases m.objects.Keys - path
    {
      if o in path {
        return Diverges;
      }
      var t := ClassOf(m, o);
      if t == "IfcMaterialProfile" {
        r := MergeCarrier(m, GetObject(m, o, "Profile"));
      } else if t == "IfcMaterialProfileSet" {
        var mps := GetList(m, o, "MaterialProfiles");
        if mps.None? {
          return Ok(());
        }
        var items := mps.value;
        ghost var bags0 := bags;
        var i := 0;
        while i < |items|
          invariant 0 <= i <= |items|
          invariant SinkProfiles(variant, m, items[i..], bags) == SinkProfiles(variant, m, items, bags0)
        {
          assert items[i..][1..] == items[i + 1..];
          var mp := AsObject(m, items[i]);
          if !mp.Ok? {
            return mp.PropagateFailure();
          }
          r := MergeCarrier(m, GetObject(m, mp.value, "Profile"));
          if !r.Ok? {
            return r;
          }
          i := i + 1;
        }
        r := Ok(());
      } else if t == "IfcMaterialProfileSetUsage" {
        var next := GetObject(m, o, "ForProfileSet");
        if next.None? {
          return Ok(());
        }
        r := VisitProfiles(m, next.value, path + {o});
      } else {
        r := Ok(());
      }
    }

    /** `forEachMaterialDefinitionAndProfiles`. */
    method VisitAssociations(m: Model, e: Oid) returns (r: Outcome<()>)
      requires e in m.objects
      modifies this
      ensures Settled(r, Associations(variant, m, e, old(bags)))
    {
      var assocs := GetList(m, e, "HasAssociations");
      if assocs.None? {
        return Ok(());
      }
      var items := assocs.value;
      ghost var bags0 := bags;
      var i := 0;
      while i < |items|
        invariant 0 <= i <= |items|
        invariant AssociationItems(variant, m, items[i..], bags) == AssociationItems(variant, m, items, bags0)
      {
        assert items[i..][1..] == items[i + 1..];
        var rel := AsObject(m, items[i]);
        if !rel.Ok? {
          return rel.PropagateFailure();
        }
        var matSel := GetObject(m, rel.value, "RelatingMaterial");
        if ClassOf(m, rel.value) == "IfcRelAssociatesMaterial" && matSel.Some? {
          r := VisitMaterial(m, matSel.value, {});
          if !r.Ok? {
            return r;
          }
          r := VisitProfiles(m, matSel.value, {});
          if !r.Ok? {
            return r;
          }
        }
        i := i + 1;
      }
      r := Ok(());
    }

    /** The loop over the element's property-definition relations. */
    method MergeDefinedBy(m: Model, rels: seq<Val>) returns (r: Outcome<()>)
      modifies this
      ensures Settled(r, DefinedByItems(variant, m, rels, old(bags)))
    {
      var i := 0;
      while i < |rels|
        invariant 0 <= i <= |rels|
        invariant DefinedByItems(variant, m, rels[i..], bags) == DefinedByItems(variant, m, rels, old(bags))
      {
        assert rels[i..][1..] == rels[i + 1..];
        var rel := AsObject(m, rels[i]);
        if !rel.Ok? {
          return rel.PropagateFailure();
        }
        var pdef := GetObject(m, rel.value, "RelatingPropertyDefinition");
        if ClassOf(m, rel.value) == "IfcRelDefinesByProperties" && pdef.Some? {
          r := MergeDefinition(m, pdef.value);
          if !r.Ok? {
            return r;
          }
        }
        i := i + 1;
      }
      r := Ok(());
    }

    /** The loop over the property containers one type lists. */
    method MergeTypeSets(m: Model, items: seq<Val>) returns (r: Outcome<()>)
      modifies this
      ensures Settled(r, TypeSetItems(variant, m, items, old(bags)))
    {
      var j := 0;
      while j < |items|
        invariant 0 <= j <= |items|
        invariant TypeSetItems(variant, m, items[j..], bags) == TypeSetItems(variant, m, items, old(bags))
      {
        assert items[j..][1..] == items[j + 1..];
        var ps := AsObject(m, items[j]);
        if !ps.Ok? {
          return ps.PropagateFailure();
        }
        r := MergeDefinition(m, ps.value);
        if !r.Ok? {
          return r;
        }
        j := j + 1;
      }
      r := Ok(());
    }

    /** The loop over the element's type relations. */
    method MergeTypedBy(m: Model, typeRels: seq<Val>) returns (r: Outcome<()>)
      modifies this
      ensures Settled(r, TypedByItems(variant, m, typeRels, old(bags)))
    {
      var i := 0;
      while i < |typeRels|
        invariant 0 <= i <= |typeRels|
        invariant TypedByItems(variant, m, typeRels[i..], bags) == TypedByItems(variant, m, typeRels, old(bags))
      {
        assert typeRels[i..][1..] == typeRels[i + 1..];
        var rel := AsObject(m, typeRels[i]);
        if !rel.Ok? {
          return rel.PropagateFailure();
        }
        var typeObj := GetObject(m, rel.value, "RelatingType");
        var psets := if typeObj.None? then None else GetList(m, typeObj.value, "HasPropertySets");
        if ClassOf(m, rel.value) == "IfcRelDefinesByType" && psets.Some? {
          r := MergeTypeSets(m, psets.value);
          if !r.Ok? {
            return r;
          }
        }
        i := i + 1;
      }
      r := Ok(());
    }

    /** `getPsets`, collecting into this (initially empty) collector. */
    method CollectPsets(m: Model, e: Oid) returns (r: Outcome<()>)
      requires e in m.objects && bags == []
      modifies this
      ensures Settled(r, PsetsSpec(variant, m, e))
    {
      r := MergeDefinedBy(m, GetList(m, e, "IsDefinedBy").GetOr([]));
      if !r.Ok? {
        return r;
      }
      r := MergeTypedBy(m, GetList(m, e, "IsTypedBy").GetOr([]));
      if !r.Ok? {
        return r;
      }
      r := VisitAssociations(m, e);
    }
  }
}
