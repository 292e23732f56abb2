// The rule mapper: turns one unmarshalled `<specification>` element into a
// `Specification` object. The element types mirror the XML binding classes:
// every attribute and child element is nullable, the facet lists of
// applicability and requirements are always present, and the requirements'
// entity list is not.

module Mappers {
  import opened Wrappers
  import opened JavaStrings
  import opened FacetDecls
  import opened Specifications

  // ---------------------------------------------------------------------------
  // The XML binding

  /** An `xs:restriction`: its base, its enumeration values and its pattern values. */
  datatype RestrictionXml = RestrictionXml(base: Option<string>, enumeration: seq<Option<string>>,
                                           pattern: seq<Option<string>>)

  /** An `ids:idsValue`: a simple value or a restriction. */
  datatype ValueXml = ValueXml(simpleValue: Option<string>, restriction: Option<RestrictionXml>)

  datatype EntityXml = EntityXml(name: Option<ValueXml>, predefinedType: Option<ValueXml>,
                                 instructions: Option<string>)

  datatype PartOfXml = PartOfXml(entity: Option<EntityXml>, relation: Option<string>,
                                 cardinality: Option<string>, instructions: Option<string>)

  datatype ClassificationXml = ClassificationXml(value: Option<ValueXml>, system: Option<ValueXml>,
                                                 uri: Option<string>, cardinality: Option<string>,
                                                 instructions: Option<string>)

  datatype AttributeXml = AttributeXml(name: Option<ValueXml>, value: Option<ValueXml>,
                                       cardinality: Option<string>, instructions: Option<string>)

  datatype PropertyXml = PropertyXml(propertySet: Option<ValueXml>, baseName: Option<ValueXml>,
                                     value: Option<ValueXml>, dataType: Option<string>,
                                     uri: Option<string>, cardinality: Option<string>,
                                     instructions: Option<string>)

  datatype MaterialXml = MaterialXml(value: Option<ValueXml>, uri: Option<string>,
                                     cardinality: Option<string>, instructions: Option<string>)

  datatype ApplicabilityXml = ApplicabilityXml(
    entity: Option<EntityXml>,
    partOf: seq<PartOfXml>,
    classification: seq<ClassificationXml>,
    attribute: seq<AttributeXml>,
    property: seq<PropertyXml>,
    material: seq<MaterialXml>,
    minOccurs: Option<string>,
    maxOccurs: Option<string>)

  datatype RequirementsXml = RequirementsXml(
    entity: Option<seq<EntityXml>>,
    partOf: seq<PartOfXml>,
    classification: seq<ClassificationXml>,
    attribute: seq<AttributeXml>,
    property: seq<PropertyXml>,
    material: seq<MaterialXml>,
    description: Option<string>)

  datatype SpecificationXml = SpecificationXml(
    applicability: Option<ApplicabilityXml>,
    requirements: Option<RequirementsXml>,
    name: Option<string>,
    ifcVersion: Option<seq<string>>,
    identifier: Option<string>,
    description: Option<string>,
    instructions: Option<string>)

  // ---------------------------------------------------------------------------
  // Field helpers

  /** A null string, or one with no outer space and no lower-case letter. */
  predicate Normal(s: Option<string>) {
    s.None? || (NoOuterSpace(s.value) && forall i :: 0 <= i < |s.value| ==> !('a' <= s.value[i] <= 'z'))
  }

  /** `up`: trim and upper-case; null stays null. */
  function Up(s: Option<string>): (r: Option<string>)
    ensures r.Some? <==> s.Some?
  {
    if s.None? then None else Some(Upper(Trim(s.value)))
  }

  /** `up` yields a normal string, and leaves a normal string as it is; so it is idempotent. */
  lemma UpNormal(s: Option<string>)
    ensures Normal(Up(s))
    ensures Normal(s) ==> Up(s) == s
    ensures Up(Up(s)) == Up(s)
  {
    if s.Some? {
      var t := Trim(s.value);
      TrimResult(s.value);
      var u := Upper(t);
      assert NoOuterSpace(u) by {
        if |u| > 0 {
          assert !IsTrimmed(t[0]) && !IsTrimmed(t[|t| - 1]);
        }
      }
      if Normal(s) {
        TrimNoop(s.value);
        assert u == s.value;
      }
      TrimNoop(u);
      assert Upper(u) == u;
    }
  }

  /** `defCard`: a null or blank cardinality reads "required". */
  function DefCard(c: Option<string>): (r: string)
    ensures !IsBlank(r)
    ensures !NullOrBlank(c) ==> r == c.value
  {
    if NullOrBlank(c) then (assert !IsWhitespace("required"[0]); "required") else c.value
  }

  /** `text`: the simple value when it is not blank, else the first enumeration value. */
  function Text(v: Option<ValueXml>): (r: Option<string>)
    ensures r.Some? ==> v.Some? && (r == v.value.simpleValue
                                    || (v.value.restriction.Some? && r in v.value.restriction.value.enumeration))
    ensures v.Some? && !NullOrBlank(v.value.simpleValue) ==> r == v.value.simpleValue
  {
    if v.None? then None
    else if !NullOrBlank(v.value.simpleValue) then v.value.simpleValue
    else if v.value.restriction.Some? && v.value.restriction.value.enumeration != [] then
      v.value.restriction.value.enumeration[0]
    else None
  }

  /** `value`: a simple value whenever one is given (blank or not), else the restriction's
      enumeration and pattern values. */
  function ValueOf(v: Option<ValueXml>): (r: Option<MappedValue>)
    ensures r.Some? <==> v.Some? && (v.value.simpleValue.Some? || v.value.restriction.Some?)
    ensures r.Some? && r.value.SimpleArg? ==> v.value.simpleValue == Some(r.value.text)
    ensures r.Some? && r.value.RestrictionArg? ==>
      v.value.simpleValue.None? && r.value.enums == v.value.restriction.value.enumeration
      && r.value.patterns == v.value.restriction.value.pattern
  {
    if v.None? then None
    else if v.value.simpleValue.Some? then Some(SimpleArg(v.value.simpleValue.value))
    else if v.value.restriction.Some? then
      Some(RestrictionArg(v.value.restriction.value.enumeration, v.value.restriction.value.pattern))
    else None
  }

  /** `text` and `value` read a non-blank simple value alike; on a blank one they part:
      `value` keeps the blank text while `text` falls back to the first enumeration value. */
  lemma TextValueAgree(v: Option<ValueXml>)
    ensures v.Some? && !NullOrBlank(v.value.simpleValue) ==>
      ValueOf(v) == Some(SimpleArg(v.value.simpleValue.value)) && Text(v) == v.value.simpleValue
    ensures v.Some? && v.value.simpleValue.Some? && IsBlank(v.value.simpleValue.value) ==>
      ValueOf(v) == Some(SimpleArg(v.value.simpleValue.value))
      && Text(v) == (if v.value.restriction.Some? && v.value.restriction.value.enumeration != []
                     then v.value.restriction.value.enumeration[0] else None)
    ensures v.Some? && v.value.simpleValue.None? && v.value.restriction.Some?
            && v.value.restriction.value.enumeration != [] ==>
      Text(v) == ValueOf(v).value.enums[0]
  {
  }

  // ---------------------------------------------------------------------------
  // Facet builders

  function MapEntity(e: EntityXml): (r: FacetDecl)
    ensures r.EntityDecl? && Normal(r.name) && Normal(r.predefinedType)
    ensures r.instructions == e.instructions
    ensures r.name.Some? <==> Text(e.name).Some?
  {
    UpNormal(Text(e.name));
    UpNormal(Text(e.predefinedType));
    EntityDecl(Up(Text(e.name)), Up(Text(e.predefinedType)), e.instructions)
  }

  function MapPartOf(po: PartOfXml): (r: FacetDecl)
    ensures r.PartOfDecl? && r.cardinality == po.cardinality
    ensures po.entity.None? ==> r.entityName.None? && r.entityType.None?
  {
    PartOfDecl(if po.entity.Some? then Text(po.entity.value.name) else None,
               if po.entity.Some? then Text(po.entity.value.predefinedType) else None,
               po.relation, po.cardinality, po.instructions)
  }

  function MapClassification(c: ClassificationXml): (r: FacetDecl)
    ensures r.ClassificationDecl? && !IsBlank(r.card)
  {
    ClassificationDecl(Text(c.system), ValueOf(c.value), c.uri, DefCard(c.cardinality), c.instructions)
  }

  function MapAttribute(a: AttributeXml): (r: FacetDecl)
    ensures r.AttributeDecl? && !IsBlank(r.card)
  {
    AttributeDecl(Text(a.name), ValueOf(a.value), DefCard(a.cardinality), a.instructions)
  }

  function MapProperty(p: PropertyXml): (r: FacetDecl)
    ensures r.PropertyDecl? && !IsBlank(r.card) && Normal(r.dataType)
  {
    UpNormal(p.dataType);
    PropertyDecl(Text(p.propertySet), Text(p.baseName), ValueOf(p.value), Up(p.dataType), p.uri,
                 DefCard(p.cardinality), p.instructions)
  }

  function MapMaterial(m: MaterialXml): (r: FacetDecl)
    ensures r.MaterialDecl? && !IsBlank(r.card)
  {
    MaterialDecl(ValueOf(m.value), m.uri, DefCard(m.cardinality), m.instructions)
  }

  function PartOfCard(po: PartOfXml): Option<string> { po.cardinality }
  function ClassificationCard(c: ClassificationXml): Option<string> { c.cardinality }
  function AttributeCard(a: AttributeXml): Option<string> { a.cardinality }
  function PropertyCard(p: PropertyXml): Option<string> { p.cardinality }
  function MaterialCard(m: MaterialXml): Option<string> { m.cardinality }

  /** One facet per element, in document order. */
  function Mapped<X>(xs: seq<X>, f: X -> FacetDecl): (r: seq<FacetDecl>)
    ensures |r| == |xs| && forall i :: 0 <= i < |xs| ==> r[i] == f(xs[i])
  {
    seq(|xs|, i requires 0 <= i < |xs| => f(xs[i]))
  }

  /** The cardinality left by a run of `setCardinality` calls over `xs`, starting from `c`. */
  function LastCard<X>(xs: seq<X>, card: X -> Option<string>, c: Option<string>): Option<string> {
    if xs == [] then c else card(xs[|xs| - 1])
  }

  // ---------------------------------------------------------------------------
  // What the mapped specification holds

  /** The applicability facets: the entity, then every partOf, classification, attribute,
      property and material, each group in document order. */
  function AppFacets(ax: ApplicabilityXml): seq<FacetDecl> {
    (if ax.entity.Some? then [MapEntity(ax.entity.value)] else [])
    + Mapped(ax.partOf, MapPartOf) + Mapped(ax.classification, MapClassification)
    + Mapped(ax.attribute, MapAttribute) + Mapped(ax.property, MapProperty)
    + Mapped(ax.material, MapMaterial)
  }

  /** The requirement facets, grouped in the same order. */
  function ReqFacets(rx: RequirementsXml): seq<FacetDecl> {
    (if rx.entity.Some? then Mapped(rx.entity.value, MapEntity) else [])
    + Mapped(rx.partOf, MapPartOf) + Mapped(rx.classification, MapClassification)
    + Mapped(rx.attribute, MapAttribute) + Mapped(rx.property, MapProperty)
    + Mapped(rx.material, MapMaterial)
  }

  /** The cardinality after the requirement loops, from `c` before them. */
  function ReqCardinality(rx: RequirementsXml, c: Option<string>): Option<string> {
    var c1 := LastCard(rx.partOf, PartOfCard, c);
    var c2 := LastCard(rx.classification, ClassificationCard, c1);
    var c3 := LastCard(rx.attribute, AttributeCard, c2);
    var c4 := LastCard(rx.property, PropertyCard, c3);
    LastCard(rx.material, MaterialCard, c4)
  }

  /** The description, filled from the requirements when the specification's own is null or blank. */
  function MappedDescription(x: SpecificationXml): (r: Option<string>)
    ensures !NullOrBlank(x.description) ==> r == x.description
    ensures r != x.description ==>
      NullOrBlank(x.description) && x.requirements.Some? && r == x.requirements.value.description
  {
    if x.requirements.Some? && x.requirements.value.description.Some? && NullOrBlank(x.description)
    then x.requirements.value.description
    else x.description
  }

  /** The version tokens from `k` on, appended to `acc`; the first unknown token throws. */
  function VersionsFrom(tokens: seq<string>, k: nat, acc: seq<IfcVersion>): Outcome<seq<IfcVersion>>
    requires k <= |tokens|
    decreases |tokens| - k
  {
    if k == |tokens| then Ok(acc)
    else
      var v :- VersionFromString(tokens[k]);
      VersionsFrom(tokens, k + 1, acc + [v])
  }

  /** The versions of a specification; a null list gives none. */
  function Versions(tokens: Option<seq<string>>): Outcome<seq<IfcVersion>> {
    if tokens.None? then Ok([]) else VersionsFrom(tokens.value, 0, [])
  }

  lemma {:induction false} VersionsFromSpec(tokens: seq<string>, k: nat, acc: seq<IfcVersion>)
    requires k <= |tokens|
    ensures var r := VersionsFrom(tokens, k, acc);
      (r.Ok? <==> forall i :: k <= i < |tokens| ==> VersionFromString(tokens[i]).Ok?)
      && (!r.Ok? ==> r == Throws(IllegalArgument))
      && (r.Ok? ==> |r.value| == |acc| + |tokens| - k && r.value[..|acc|] == acc
                    && forall i :: k <= i < |tokens| ==> r.value[|acc| + i - k] == VersionFromString(tokens[i]).value)
    decreases |tokens| - k
  {
    if k < |tokens| {
      var v := VersionFromString(tokens[k]);
      if v.Ok? {
        VersionsFromSpec(tokens, k + 1, acc + [v.value]);
        var r := VersionsFrom(tokens, k + 1, acc + [v.value]);
        if r.Ok? {
          assert r.value[..|acc| + 1][..|acc|] == r.value[..|acc|];
        }
      }
    }
  }

  /** Every token is read in order; one unknown token makes the whole mapping throw, and
      IFC4X3_ADD2 is never among the versions. */
  lemma VersionsSpec(tokens: seq<string>)
    ensures var r := Versions(Some(tokens));
      (r.Ok? <==> forall i :: 0 <= i < |tokens| ==> VersionFromString(tokens[i]).Ok?)
      && (!r.Ok? ==> r == Throws(IllegalArgument))
      && (r.Ok? ==> |r.value| == |tokens| && IFC4X3_ADD2 !in r.value
                    && forall i :: 0 <= i < |tokens| ==> r.value[i] == VersionFromString(tokens[i]).value)
  {
    VersionsFromSpec(tokens, 0, []);
    var r := Versions(Some(tokens));
    if r.Ok? {
      forall i | 0 <= i < |r.value|
        ensures r.value[i] != IFC4X3_ADD2
      {
        assert r.value[i] == VersionFromString(tokens[i]).value;
      }
    }
  }

  function MappedHeader(x: SpecificationXml): (r: Header)
    ensures !IsBlank(r.name)
  {
    assert !IsWhitespace("Unnamed"[0]);
    Header(if NullOrBlank(x.name) then "Unnamed" else x.name.value, x.identifier,
           MappedDescription(x), x.instructions,
           if x.requirements.Some? then ReqCardinality(x.requirements.value, None) else None)
  }

  function MappedRules(x: SpecificationXml, versions: seq<IfcVersion>): Ruleset {
    Ruleset(versions,
            if x.applicability.Some? then AppFacets(x.applicability.value) else [],
            if x.requirements.Some? then ReqFacets(x.requirements.value) else [],
            if x.applicability.Some? then x.applicability.value.minOccurs else None,
            if x.applicability.Some? then x.applicability.value.maxOccurs else None)
  }

  // ---------------------------------------------------------------------------
  // Properties of the mapped facets

  /** The group a facet belongs to, in the order the mapper emits the groups. */
  function Rank(f: FacetDecl): nat {
    if f.EntityDecl? then 0
    else if f.PartOfDecl? then 1
    else if f.ClassificationDecl? then 2
    else if f.AttributeDecl? then 3
    else if f.PropertyDecl? then 4
    else 5
  }

  predicate Ranked(fs: seq<FacetDecl>) {
    forall i, j :: 0 <= i <= j < |fs| ==> Rank(fs[i]) <= Rank(fs[j])
  }

  predicate RankAtMost(fs: seq<FacetDecl>, k: nat) {
    forall i :: 0 <= i < |fs| ==> Rank(fs[i]) <= k
  }

  predicate RankIs(fs: seq<FacetDecl>, k: nat) {
    forall i :: 0 <= i < |fs| ==> Rank(fs[i]) == k
  }

  lemma RankedAppend(a: seq<FacetDecl>, b: seq<FacetDecl>, k: nat)
    requires Ranked(a) && RankAtMost(a, k) && RankIs(b, k)
    ensures Ranked(a + b) && RankAtMost(a + b, k)
  {
    var c := a + b;
    forall i, j | 0 <= i <= j < |c|
      ensures Rank(c[i]) <= Rank(c[j])
    {
      if j < |a| {
        assert c[i] == a[i] && c[j] == a[j];
      } else if i < |a| {
        assert c[i] == a[i] && c[j] == b[j - |a|];
      } else {
        assert c[i] == b[i - |a|] && c[j] == b[j - |a|];
      }
    }
  }

  lemma EntitiesRank(xs: seq<EntityXml>)
    ensures RankIs(Mapped(xs, MapEntity), 0)
  {
    forall i | 0 <= i < |xs| ensures Rank(Mapped(xs, MapEntity)[i]) == 0 {
      assert Mapped(xs, MapEntity)[i] == MapEntity(xs[i]);
    }
  }

  lemma PartOfsRank(xs: seq<PartOfXml>)
    ensures RankIs(Mapped(xs, MapPartOf), 1)
  {
    forall i | 0 <= i < |xs| ensures Rank(Mapped(xs, MapPartOf)[i]) == 1 {
      assert Mapped(xs, MapPartOf)[i] == MapPartOf(xs[i]);
    }
  }

  lemma ClassificationsRank(xs: seq<ClassificationXml>)
    ensures RankIs(Mapped(xs, MapClassification), 2)
  {
    forall i | 0 <= i < |xs| ensures Rank(Mapped(xs, MapClassification)[i]) == 2 {
      assert Mapped(xs, MapClassification)[i] == MapClassification(xs[i]);
    }
  }

  lemma AttributesRank(xs: seq<AttributeXml>)
    ensures RankIs(Mapped(xs, MapAttribute), 3)
  {
    forall i | 0 <= i < |xs| ensures Rank(Mapped(xs, MapAttribute)[i]) == 3 {
      assert Mapped(xs, MapAttribute)[i] == MapAttribute(xs[i]);
    }
  }

  lemma PropertiesRank(xs: seq<PropertyXml>)
    ensures RankIs(Mapped(xs, MapProperty), 4)
  {
    forall i | 0 <= i < |xs| ensures Rank(Mapped(xs, MapProperty)[i]) == 4 {
      assert Mapped(xs, MapProperty)[i] == MapProperty(xs[i]);
    }
  }

  lemma MaterialsRank(xs: seq<MaterialXml>)
    ensures RankIs(Mapped(xs, MapMaterial), 5)
  {
    forall i | 0 <= i < |xs| ensures Rank(Mapped(xs, MapMaterial)[i]) == 5 {
      assert Mapped(xs, MapMaterial)[i] == MapMaterial(xs[i]);
    }
  }

  /** The applicability facets come grouped: the entity, then partOf, classification,
      attribute, property and material facets. */
  lemma AppRanked(ax: ApplicabilityXml)
    ensures Ranked(AppFacets(ax))
  {
    var e: seq<FacetDecl> := if ax.entity.Some? then [MapEntity(ax.entity.value)] else [];
    assert RankIs(e, 0) by {
      if ax.entity.Some? {
        assert e[0].EntityDecl?;
      }
    }
    RankedAppend([], e, 0);
    assert [] + e == e;
    var a1 := e + Mapped(ax.partOf, MapPartOf);
    PartOfsRank(ax.partOf);
    RankedAppend(e, Mapped(ax.partOf, MapPartOf), 1);
    var a2 := a1 + Mapped(ax.classification, MapClassification);
    ClassificationsRank(ax.classification);
    RankedAppend(a1, Mapped(ax.classification, MapClassification), 2);
    var a3 := a2 + Mapped(ax.attribute, MapAttribute);
    AttributesRank(ax.attribute);
    RankedAppend(a2, Mapped(ax.attribute, MapAttribute), 3);
    var a4 := a3 + Mapped(ax.property, MapProperty);
    PropertiesRank(ax.property);
    RankedAppend(a3, Mapped(ax.property, MapProperty), 4);
    MaterialsRank(ax.material);
    RankedAppend(a4, Mapped(ax.material, MapMaterial), 5);
  }

  /** The requirement facets come grouped the same way, the entities first. */
  lemma ReqRanked(rx: RequirementsXml)
    ensures Ranked(ReqFacets(rx))
  {
    var e: seq<FacetDecl> := if rx.entity.Some? then Mapped(rx.entity.value, MapEntity) else [];
    if rx.entity.Some? {
      EntitiesRank(rx.entity.value);
    }
    RankedAppend([], e, 0);
    assert [] + e == e;
    var a1 := e + Mapped(rx.partOf, MapPartOf);
    PartOfsRank(rx.partOf);
    RankedAppend(e, Mapped(rx.partOf, MapPartOf), 1);
    var a2 := a1 + Mapped(rx.classification, MapClassification);
    ClassificationsRank(rx.classification);
    RankedAppend(a1, Mapped(rx.classification, MapClassification), 2);
    var a3 := a2 + Mapped(rx.attribute, MapAttribute);
    AttributesRank(rx.attribute);
    RankedAppend(a2, Mapped(rx.attribute, MapAttribute), 3);
    var a4 := a3 + Mapped(rx.property, MapProperty);
    PropertiesRank(rx.property);
    RankedAppend(a3, Mapped(rx.property, MapProperty), 4);
    MaterialsRank(rx.material);
    RankedAppend(a4, Mapped(rx.material, MapMaterial), 5);
  }

  /** The first applicability facet is the anchor the check starts from: the entity facet
      when the element has one, and no other applicability facet is an entity. */
  lemma AnchorIsMappedEntity(ax: ApplicabilityXml)
    requires AppFacets(ax) != []
    ensures Anchor(AppFacets(ax)) == 0
    ensures forall i :: 0 <= i < |AppFacets(ax)| ==>
              (AppFacets(ax)[i].EntityDecl? <==> i == 0 && ax.entity.Some?)
    ensures ax.entity.Some? ==> AppFacets(ax)[0] == MapEntity(ax.entity.value)
  {
    var e: seq<FacetDecl> := if ax.entity.Some? then [MapEntity(ax.entity.value)] else [];
    var k := |e|;
    var a1 := e + Mapped(ax.partOf, MapPartOf);
    PartOfsRank(ax.partOf);
    NoEntityAppend(e, Mapped(ax.partOf, MapPartOf), k, 1);
    var a2 := a1 + Mapped(ax.classification, MapClassification);
    ClassificationsRank(ax.classification);
    NoEntityAppend(a1, Mapped(ax.classification, MapClassification), k, 2);
    var a3 := a2 + Mapped(ax.attribute, MapAttribute);
    AttributesRank(ax.attribute);
    NoEntityAppend(a2, Mapped(ax.attribute, MapAttribute), k, 3);
    var a4 := a3 + Mapped(ax.property, MapProperty);
    PropertiesRank(ax.property);
    NoEntityAppend(a3, Mapped(ax.property, MapProperty), k, 4);
    MaterialsRank(ax.material);
    NoEntityAppend(a4, Mapped(ax.material, MapMaterial), k, 5);
    var fs := AppFacets(ax);
    assert NoEntityFrom(fs, k);
    assert k == 1 ==> fs[0] == e[0];
  }

  /** No entity facet at position `k` or later. */
  predicate NoEntityFrom(fs: seq<FacetDecl>, k: nat) {
    forall i :: k <= i < |fs| ==> !fs[i].EntityDecl?
  }

  lemma NoEntityAppend(a: seq<FacetDecl>, b: seq<FacetDecl>, k: nat, r: nat)
    requires k <= |a| && NoEntityFrom(a, k) && RankIs(b, r) && r > 0
    ensures NoEntityFrom(a + b, k) && (a + b)[..k] == a[..k]
  {
    var c := a + b;
    forall i | k <= i < |c|
      ensures !c[i].EntityDecl?
    {
      if i < |a| {
        assert c[i] == a[i];
      } else {
        assert c[i] == b[i - |a|];
      }
    }
  }

  /** The facet-level conditions the mapper establishes: normalised entity names and types
      and property data types, and a non-blank cardinality on every facet that defaults it. */
  predicate WellMapped(f: FacetDecl) {
    match f
    case EntityDecl(name, predefinedType, _) => Normal(name) && Normal(predefinedType)
    case PartOfDecl(_, _, _, _, _) => true
    case ClassificationDecl(_, _, _, card, _) => !IsBlank(card)
    case AttributeDecl(_, _, card, _) => !IsBlank(card)
    case PropertyDecl(_, _, _, dataType, _, card, _) => Normal(dataType) && !IsBlank(card)
    case MaterialDecl(_, _, card, _) => !IsBlank(card)
  }

  lemma MappedFacetsWellMapped(ax: ApplicabilityXml, rx: RequirementsXml)
    ensures forall f :: f in AppFacets(ax) ==> WellMapped(f)
    ensures forall f :: f in ReqFacets(rx) ==> WellMapped(f)
  {
  }

  /** A facet built from an element whose raw cardinality is `card`: a partOf facet keeps
      it as it is, the other non-entity facets hold its default. */
  predicate CardFits(f: FacetDecl, card: Option<string>) {
    (f.PartOfDecl? ==> f.cardinality == card)
    && (f.ClassificationDecl? || f.AttributeDecl? || f.PropertyDecl? || f.MaterialDecl? ==> f.card == DefCard(card))
  }

  /** The stored cardinality `card` is `c` as long as no non-entity facet was added, and
      otherwise the one the last facet was built from. */
  predicate CardTracks(fs: seq<FacetDecl>, card: Option<string>, c: Option<string>) {
    (fs == [] || fs[|fs| - 1].EntityDecl? ==> card == c)
    && (fs != [] && !fs[|fs| - 1].EntityDecl? ==> CardFits(fs[|fs| - 1], card))
  }

  lemma CardTracksAppend<X>(fs: seq<FacetDecl>, xs: seq<X>, f: X -> FacetDecl, cardOf: X -> Option<string>,
                            card: Option<string>, c: Option<string>)
    requires CardTracks(fs, card, c)
    requires forall x :: !f(x).EntityDecl? && CardFits(f(x), cardOf(x))
    ensures CardTracks(fs + Mapped(xs, f), LastCard(xs, cardOf, card), c)
  {
    if xs == [] {
      assert fs + Mapped(xs, f) == fs;
    } else {
      var g := fs + Mapped(xs, f);
      assert g[|g| - 1] == f(xs[|xs| - 1]);
    }
  }

  /** `setCardinality` keeps only the last requirement's raw cardinality: when the last
      requirement facet is not an entity, the specification's cardinality is the one that
      facet was built from (defaulted in the facet, raw in the specification). */
  lemma CardinalityOfLastRequirement(rx: RequirementsXml, c: Option<string>)
    ensures CardTracks(ReqFacets(rx), ReqCardinality(rx, c), c)
  {
    var e: seq<FacetDecl> := if rx.entity.Some? then Mapped(rx.entity.value, MapEntity) else [];
    assert CardTracks(e, c, c);
    var c1 := LastCard(rx.partOf, PartOfCard, c);
    CardTracksAppend(e, rx.partOf, MapPartOf, PartOfCard, c, c);
    var a1 := e + Mapped(rx.partOf, MapPartOf);
    var c2 := LastCard(rx.classification, ClassificationCard, c1);
    CardTracksAppend(a1, rx.classification, MapClassification, ClassificationCard, c1, c);
    var a2 := a1 + Mapped(rx.classification, MapClassification);
    var c3 := LastCard(rx.attribute, AttributeCard, c2);
    CardTracksAppend(a2, rx.attribute, MapAttribute, AttributeCard, c2, c);
    var a3 := a2 + Mapped(rx.attribute, MapAttribute);
    var c4 := LastCard(rx.property, PropertyCard, c3);
    CardTracksAppend(a3, rx.property, MapProperty, PropertyCard, c3, c);
    var a4 := a3 + Mapped(rx.property, MapProperty);
    CardTracksAppend(a4, rx.material, MapMaterial, MaterialCard, c4, c);
  }

  /** What a mapped specification's rules look like: both facet lists grouped, every facet
      well mapped, and the first applicability facet the anchor. */
  lemma MappedRulesShape(x: SpecificationXml, versions: seq<IfcVersion>)
    ensures var rules := MappedRules(x, versions);
      Ranked(rules.applicability) && Ranked(rules.requirements)
      && (forall f :: f in rules.applicability ==> WellMapped(f))
      && (forall f :: f in rules.requirements ==> WellMapped(f))
      && (rules.applicability != [] ==> Anchor(rules.applicability) == 0)
  {
    if x.applicability.Some? {
      AppRanked(x.applicability.value);
      MappedFacetsWellMapped(x.applicability.value, RequirementsXml(None, [], [], [], [], [], None));
      if AppFacets(x.applicability.value) != [] {
        AnchorIsMappedEntity(x.applicability.value);
      }
    }
    if x.requirements.Some? {
      ReqRanked(x.requirements.value);
      MappedFacetsWellMapped(ApplicabilityXml(None, [], [], [], [], [], None, None), x.requirements.value);
    }
  }

  // ---------------------------------------------------------------------------
  // mapSpec

  /** The version loop: every token read and appended in turn; an unknown one throws. */
  method AddVersions(s: Specification, tokens: seq<string>) returns (out: Outcome<()>)
    requires s.ifcVersion == []
    modifies s`ifcVersion
    ensures var v := VersionsFrom(tokens, 0, []);
      (out.Ok? <==> v.Ok?) && (out.Ok? ==> s.ifcVersion == v.value)
      && (!out.Ok? ==> out == Throws(IllegalArgument))
  {
    VersionsFromSpec(tokens, 0, []);
    var i := 0;
    while i < |tokens|
      invariant 0 <= i <= |tokens|
      invariant VersionsFrom(tokens, i, s.ifcVersion) == VersionsFrom(tokens, 0, [])
    {
      var v :- VersionFromString(tokens[i]);
      s.ifcVersion := s.ifcVersion + [v];
      i := i + 1;
    }
    return Ok(());
  }

  /** One applicability loop: each element mapped and appended. */
  method AddApplicability<X>(s: Specification, xs: seq<X>, f: X -> FacetDecl)
    modifies s`applicability
    ensures s.applicability == old(s.applicability) + Mapped(xs, f)
  {
    var i := 0;
    while i < |xs|
      invariant 0 <= i <= |xs|
      invariant s.applicability == old(s.applicability) + Mapped(xs[..i], f)
    {
      assert Mapped(xs[..i + 1], f) == Mapped(xs[..i], f) + [f(xs[i])];
      s.applicability := s.applicability + [f(xs[i])];
      i := i + 1;
    }
    assert xs[..i] == xs;
  }

  /** The requirements' entity loop: each entity mapped and added as a requirement. */
  method AddRequirements<X>(s: Specification, xs: seq<X>, f: X -> FacetDecl)
    requires s.Valid() && s.State() == Cleanly(|s.requirements|)
    modifies s`requirements, s`facetPassed, s`facetFailures, s`facetStatus
    ensures s.Valid() && s.State() == Cleanly(|s.requirements|)
    ensures s.requirements == old(s.requirements) + Mapped(xs, f)
  {
    var i := 0;
    while i < |xs|
      invariant 0 <= i <= |xs|
      invariant s.Valid() && s.State() == Cleanly(|s.requirements|)
      invariant s.requirements == old(s.requirements) + Mapped(xs[..i], f)
    {
      assert Mapped(xs[..i + 1], f) == Mapped(xs[..i], f) + [f(xs[i])];
      s.AddRequirement(f(xs[i]));
      CleanlyGrows(|s.requirements| - 1);
      i := i + 1;
    }
    assert xs[..i] == xs;
  }

  /** One of the other requirement loops: each element mapped and added as a requirement,
      then its raw cardinality stored in the specification. */
  method AddCardinal<X>(s: Specification, xs: seq<X>, f: X -> FacetDecl, card: X -> Option<string>)
    requires s.Valid() && s.State() == Cleanly(|s.requirements|)
    modifies s`requirements, s`facetPassed, s`facetFailures, s`facetStatus, s`cardinality
    ensures s.Valid() && s.State() == Cleanly(|s.requirements|)
    ensures s.requirements == old(s.requirements) + Mapped(xs, f)
    ensures s.cardinality == LastCard(xs, card, old(s.cardinality))
  {
    var i := 0;
    while i < |xs|
      invariant 0 <= i <= |xs|
      invariant s.Valid() && s.State() == Cleanly(|s.requirements|)
      invariant s.requirements == old(s.requirements) + Mapped(xs[..i], f)
      invariant s.cardinality == LastCard(xs[..i], card, old(s.cardinality))
    {
      assert Mapped(xs[..i + 1], f) == Mapped(xs[..i], f) + [f(xs[i])];
      s.AddRequirement(f(xs[i]));
      CleanlyGrows(|s.requirements| - 1);
      s.cardinality := card(xs[i]);
      i := i + 1;
    }
    assert xs[..i] == xs;
  }

  /** The applicability block: the occurrence bounds, then the facets group by group. */
  method MapApplicability(s: Specification, ax: ApplicabilityXml)
    requires s.applicability == []
    modifies s`minOccurs, s`maxOccurs, s`applicability
    ensures s.applicability == AppFacets(ax)
    ensures s.minOccurs == ax.minOccurs && s.maxOccurs == ax.maxOccurs
  {
    s.minOccurs := ax.minOccurs;
    s.maxOccurs := ax.maxOccurs;
    if ax.entity.Some? {
      s.applicability := s.applicability + [MapEntity(ax.entity.value)];
    }
    assert s.applicability == if ax.entity.Some? then [MapEntity(ax.entity.value)] else [];
    AddApplicability(s, ax.partOf, MapPartOf);
    AddApplicability(s, ax.classification, MapClassification);
    AddApplicability(s, ax.attribute, MapAttribute);
    AddApplicability(s, ax.property, MapProperty);
    AddApplicability(s, ax.material, MapMaterial);
  }

  /** The requirements block: the entities, the other facets group by group with their
      cardinalities, and the description fallback. */
  method MapRequirements(s: Specification, rx: RequirementsXml)
    requires s.Valid() && s.requirements == [] && s.State() == Cleanly(0)
    modifies s`requirements, s`facetPassed, s`facetFailures, s`facetStatus, s`cardinality, s`description
    ensures s.Valid() && s.State() == Cleanly(|s.requirements|)
    ensures s.requirements == ReqFacets(rx)
    ensures s.cardinality == ReqCardinality(rx, old(s.cardinality))
    ensures s.description == if rx.description.Some? && NullOrBlank(old(s.description))
                             then rx.description else old(s.description)
  {
    if rx.entity.Some? {
      AddRequirements(s, rx.entity.value, MapEntity);
    }
    assert s.requirements == if rx.entity.Some? then Mapped(rx.entity.value, MapEntity) else [];
    AddCardinal(s, rx.partOf, MapPartOf, PartOfCard);
    AddCardinal(s, rx.classification, MapClassification, ClassificationCard);
    AddCardinal(s, rx.attribute, MapAttribute, AttributeCard);
    AddCardinal(s, rx.property, MapProperty, PropertyCard);
    AddCardinal(s, rx.material, MapMaterial, MaterialCard);
    if rx.description.Some? && NullOrBlank(s.description) {
      s.description := rx.description;
    }
  }

  /** The attributes of the element: the name when it is not blank, the versions (an unknown
      token throws), then identifier, description and instructions. */
  method MapAttributes(s: Specification, x: SpecificationXml) returns (out: Outcome<()>)
    requires s.Info() == Header("Unnamed", None, None, None, None) && s.ifcVersion == []
    modifies s`name, s`ifcVersion, s`identifier, s`description, s`instructions
    ensures out.Ok? <==> Versions(x.ifcVersion).Ok?
    ensures !out.Ok? ==> out == Throws(IllegalArgument)
    ensures out.Ok? ==> s.ifcVersion == Versions(x.ifcVersion).value
    ensures out.Ok? ==> s.Info() == MappedHeader(x).(description := x.description, cardinality := None)
  {
    if !NullOrBlank(x.name) {
      s.SetName(x.name);
    }
    if x.ifcVersion.Some? {
      var added := AddVersions(s, x.ifcVersion.value);
      if !added.Ok? {
        return added;
      }
    }
    s.identifier := x.identifier;
    s.description := x.description;
    s.instructions := x.instructions;
    return Ok(());
  }

  /** The applicability and requirements blocks, each when present. */
  method MapBlocks(s: Specification, x: SpecificationXml)
    requires s.Valid() && s.State() == Cleanly(0) && s.description == x.description
    requires s.applicability == [] && s.requirements == [] && s.cardinality == None
    requires s.minOccurs == None && s.maxOccurs == None
    modifies s`minOccurs, s`maxOccurs, s`applicability, s`requirements, s`facetPassed,
             s`facetFailures, s`facetStatus, s`cardinality, s`description
    ensures s.Valid() && s.State() == Cleanly(|s.requirements|)
    ensures s.Rules() == MappedRules(x, old(s.ifcVersion))
    ensures s.description == MappedDescription(x)
    ensures s.cardinality == MappedHeader(x).cardinality
  {
    if x.applicability.Some? {
      MapApplicability(s, x.applicability.value);
    }
    if x.requirements.Some? {
      MapRequirements(s, x.requirements.value);
    }
  }

  /** `mapSpec`: a new specification filled from the element; an unknown IFC version token
      throws and no specification is returned. */
  method MapSpec(x: SpecificationXml) returns (r: Outcome<Specification>)
    ensures r.Ok? <==> Versions(x.ifcVersion).Ok?
    ensures !r.Ok? ==> r == Throws(IllegalArgument)
    ensures r.Ok? ==> fresh(r.value) && r.value.Valid()
    ensures r.Ok? ==> r.value.Info() == MappedHeader(x)
    ensures r.Ok? ==> r.value.Rules() == MappedRules(x, Versions(x.ifcVersion).value)
    ensures r.Ok? ==> r.value.State() == Cleanly(|r.value.requirements|)
  {
    var s := new Specification();
    var out := MapAttributes(s, x);
    if !out.Ok? {
      return out.PropagateFailure();
    }
    MapBlocks(s, x);
    return Ok(s);
  }

  /** The state of a requirement added to a clean specification is clean. */
  lemma CleanlyGrows(n: nat)
    ensures Cleanly(n).(facetPassed := Cleanly(n).facetPassed + [[]],
                        facetFailures := Cleanly(n).facetFailures + [[]],
                        facetStatus := Cleanly(n).facetStatus + [None]) == Cleanly(n + 1)
  {
    var c := Cleanly(n);
    assert c.facetPassed + [[]] == Cleanly(n + 1).facetPassed;
    assert c.facetFailures + [[]] == Cleanly(n + 1).facetFailures;
    assert c.facetStatus + [None] == Cleanly(n + 1).facetStatus;
  }
}
