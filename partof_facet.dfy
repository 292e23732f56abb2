/**
 * The part-of facet: an element's relationship to a parent (an aggregate, a group, a spatial
 * container, a nest, a voided element, or a generic connection walk), with the parent's class
 * name and predefined type as the expected values.
 */
module PartOfFacet {
  import opened Wrappers
  import opened JavaStrings
  import opened IfcModel
  import opened Values
  import opened Results
  import Facets
  import RestrictionValues

  /** The three report templates; a facet with both a name and a type sets only the requirement one. */
  datatype Templates = Templates(applicability: Option<string>, requirement: Option<string>, prohibited: Option<string>)

  datatype PartOf = PartOf(
    name: Option<Value>,
    predefinedType: Option<Value>,
    relation: Option<string>,
    cardinality: Facets.Cardinality,
    instructions: Option<string>,
    templates: Templates)

  const MustHave := "An element must have an "

  function MakeTemplates(name: Option<Value>, predefinedType: Option<Value>, relation: Option<string>): (t: Templates)
    ensures t.requirement.Some?
    ensures t.applicability.None? <==> name.Some? && predefinedType.Some?
    ensures t.prohibited.None? <==> name.Some? && predefinedType.Some?
    ensures name.None? ==> t.requirement.value == MustHave + OrNull(relation) + " relationship"
    ensures t.applicability.Some? ==> |MustHave| <= |t.requirement.value| && var tail := t.requirement.value[|MustHave|..];
      t.applicability.value == "An element with an " + tail && t.prohibited.value == "An element must not have an " + tail
  {
    var rel := OrNull(relation);
    if name.Some? && predefinedType.Some? then
      Templates(None, Some(MustHave + rel + " relationship with an " + Extract(name.value) + " of predefined type " + Extract(predefinedType.value)), None)
    else if name.Some? then
      var tail := rel + " relationship with an " + Extract(name.value);
      Templates(Some("An element with an " + tail), Some(MustHave + tail), Some("An element must not have an " + tail))
    else
      var tail := rel + " relationship";
      Templates(Some("An element with an " + tail), Some(MustHave + tail), Some("An element must not have an " + tail))
  }

  function Make(name: Option<Value>, predefinedType: Option<Value>, relation: Option<string>, c: Facets.Cardinality, instructions: Option<string>): PartOf {
    PartOf(name, predefinedType, relation, c, instructions, MakeTemplates(name, predefinedType, relation))
  }

  // ---------------------------------------------------------------- filter

  /** The instances of each class of the schema, in classifier order, each once. */
  function CollectClasses(m: Model, classes: seq<ClassDecl>, acc: seq<Oid>): seq<Oid>
    decreases classes
  {
    if classes == [] then acc
    else CollectClasses(m, classes[1..], AddUnseen(acc, AllWithSubTypes(m, classes[0].name, m.oids)))
  }

  function FilterSpec(m: Model): seq<Oid> {
    CollectClasses(m, m.classes, [])
  }

  lemma {:induction false} CollectClassesSpec(m: Model, classes: seq<ClassDecl>, acc: seq<Oid>)
    requires Distinct(acc)
    ensures var r := CollectClasses(m, classes, acc);
      Distinct(r)
      && forall x :: x in r <==> (x in acc
        || (x in m.oids && x in m.objects && exists i :: 0 <= i < |classes| && IsA(m, x, classes[i].name)))
    decreases classes
  {
    if classes != [] {
      var found := AllWithSubTypes(m, classes[0].name, m.oids);
      AddUnseenSpec(acc, found);
      CollectClassesSpec(m, classes[1..], AddUnseen(acc, found));
      var r := CollectClasses(m, classes, acc);
      forall x | x in r
        ensures x in acc || (x in m.oids && x in m.objects && exists i :: 0 <= i < |classes| && IsA(m, x, classes[i].name))
      {
        if x !in acc && x !in found {
          var i :| 0 <= i < |classes[1..]| && IsA(m, x, classes[1..][i].name);
          assert classes[1..][i] == classes[i + 1];
        }
      }
      forall x | x in m.oids && x in m.objects && exists i :: 0 <= i < |classes| && IsA(m, x, classes[i].name)
        ensures x in r
      {
        var i :| 0 <= i < |classes| && IsA(m, x, classes[i].name);
        if i > 0 {
          assert classes[i] == classes[1..][i - 1];
        }
      }
    }
  }

  /** `filter` yields every instance of some schema class, each once. */
  lemma FilterSpecProperties(m: Model)
    ensures Distinct(FilterSpec(m))
    ensures forall x :: x in FilterSpec(m) <==>
      x in m.oids && x in m.objects && exists i :: 0 <= i < |m.classes| && IsA(m, x, m.classes[i].name)
  {
    CollectClassesSpec(m, m.classes, []);
  }

  method Filter(m: Model) returns (candidates: seq<Oid>)
    ensures candidates == FilterSpec(m)
  {
    candidates := [];
    var seen: set<Oid> := {};
    var k := 0;
    while k < |m.classes|
      invariant 0 <= k <= |m.classes|
      invariant CollectClasses(m, m.classes[k..], candidates) == FilterSpec(m)
      invariant forall x :: x in seen <==> x in candidates
    {
      assert m.classes[k..][1..] == m.classes[k + 1..];
      var found := AllWithSubTypes(m, m.classes[k].name, m.oids);
      ghost var before := candidates;
      var j := 0;
      while j < |found|
        invariant 0 <= j <= |found|
        invariant AddUnseen(candidates, found[j..]) == AddUnseen(before, found)
        invariant forall x :: x in seen <==> x in candidates
      {
        assert found[j..][1..] == found[j + 1..];
        assert found[j..][0] == found[j];
        if found[j] !in seen {
          seen := seen + {found[j]};
          candidates := candidates + [found[j]];
        }
        j := j + 1;
      }
      k := k + 1;
    }
  }

  // ---------------------------------------------------------------- relation lookups

  /**
   * How a relation in a list is recognised: by class name ignoring case (`isType`, the name kept
   * upper-cased), or by the exact class names of a group assignment.
   */
  datatype RelTest = TypeNamed(upperName: string) | GroupAssignment

  /**
   * Whether list element `v` is a relation of the wanted kind. A non-object element fails its
   * cast; a null one is skipped by a class test but throws when its class is read directly.
   */
  function Accepts(m: Model, v: Val, test: RelTest): (r: Outcome<bool>)
    ensures r == Ok(true) ==> Live(m, v)
    ensures !r.Ok? ==> r == Throws(ClassCast) || r == Throws(NullPointer)
    ensures r == Throws(NullPointer) <==> IsNull(m, v) && test.GroupAssignment?
  {
    if !IsNull(m, v) && !v.Ref? then Throws(ClassCast)
    else if IsNull(m, v) then (if test.GroupAssignment? then Throws(NullPointer) else Ok(false))
    else match test
      case TypeNamed(c) => Ok(IsType(m, v.oid, c))
      case GroupAssignment => Ok(ClassOf(m, v.oid) in {"IfcRelAssignsToGroup", "IfcRelAssignsToGroupByFactor"})
  }

  /** The relation `v` is of the wanted kind and names a live target in `feature`. */
  predicate Supplies(m: Model, v: Val, test: RelTest, feature: string) {
    Accepts(m, v, test) == Ok(true) && GetObject(m, v.oid, feature).Some?
  }

  /** The target of the first relation in `rels` that is of the wanted kind and names one. */
  function FirstTarget(m: Model, rels: seq<Val>, test: RelTest, feature: string): (r: Outcome<Option<Oid>>)
    ensures r != Diverges
    ensures r.Ok? && r.value.Some? ==> r.value.value in m.objects
    decreases rels
  {
    if rels == [] then Ok(None)
    else
      var ok :- Accepts(m, rels[0], test);
      if ok && GetObject(m, rels[0].oid, feature).Some? then Ok(GetObject(m, rels[0].oid, feature))
      else FirstTarget(m, rels[1..], test, feature)
  }

  /** The scan returns the first supplying relation's target, and finds none only when none supplies one. */
  lemma {:induction false} FirstTargetSpec(m: Model, rels: seq<Val>, test: RelTest, feature: string)
    ensures var r := FirstTarget(m, rels, test, feature);
      (r == Ok(None) <==> forall i :: 0 <= i < |rels| ==> Accepts(m, rels[i], test).Ok? && !Supplies(m, rels[i], test, feature))
      && (r.Ok? && r.value.Some? ==> exists i :: (0 <= i < |rels| && Supplies(m, rels[i], test, feature)
            && r.value == GetObject(m, rels[i].oid, feature)
            && forall j :: 0 <= j < i ==> Accepts(m, rels[j], test).Ok? && !Supplies(m, rels[j], test, feature)))
    decreases rels
  {
    if rels != [] {
      FirstTargetSpec(m, rels[1..], test, feature);
      var r := FirstTarget(m, rels, test, feature);
      var a := Accepts(m, rels[0], test);
      if a.Ok? && !Supplies(m, rels[0], test, feature) {
        assert r == FirstTarget(m, rels[1..], test, feature);
        if r == Ok(None) {
          forall i | 0 <= i < |rels| ensures Accepts(m, rels[i], test).Ok? && !Supplies(m, rels[i], test, feature) {
            if i > 0 { assert rels[i] == rels[1..][i - 1]; }
          }
        }
        if forall i :: 0 <= i < |rels| ==> Accepts(m, rels[i], test).Ok? && !Supplies(m, rels[i], test, feature) {
          forall i | 0 <= i < |rels[1..]| ensures Accepts(m, rels[1..][i], test).Ok? && !Supplies(m, rels[1..][i], test, feature) {
            assert rels[1..][i] == rels[i + 1];
          }
        }
        if r.Ok? && r.value.Some? {
          var i :| 0 <= i < |rels[1..]| && Supplies(m, rels[1..][i], test, feature)
            && r.value == GetObject(m, rels[1..][i].oid, feature)
            && forall j :: 0 <= j < i ==> Accepts(m, rels[1..][j], test).Ok? && !Supplies(m, rels[1..][j], test, feature);
          assert rels[1..][i] == rels[i + 1];
          forall j | 0 <= j < i + 1 ensures Accepts(m, rels[j], test).Ok? && !Supplies(m, rels[j], test, feature) {
            if j > 0 { assert rels[j] == rels[1..][j - 1]; }
          }
        }
      } else if a.Ok? {
        assert r == Ok(GetObject(m, rels[0].oid, feature));
      }
    }
  }

  method FindTarget(m: Model, rels: seq<Val>, test: RelTest, feature: string) returns (r: Outcome<Option<Oid>>)
    ensures r == FirstTarget(m, rels, test, feature)
  {
    var i := 0;
    while i < |rels|
      invariant 0 <= i <= |rels|
      invariant FirstTarget(m, rels[i..], test, feature) == FirstTarget(m, rels, test, feature)
    {
      assert rels[i..][1..] == rels[i + 1..];
      var ok := Accepts(m, rels[i], test);
      if !ok.Ok? {
        return ok.PropagateFailure();
      }
      if ok.value {
        var target := GetObject(m, rels[i].oid, feature);
        if target.Some? {
          return Ok(target);
        }
      }
      i := i + 1;
    }
    return Ok(None);
  }

  /** The relationship lookups: which lists are scanned, in order, for which relation and target. */
  datatype Link = Fills | Voids | Nests | Container | Group | Aggregates | Connects

  function ListsOf(link: Link): seq<string> {
    match link
    case Fills => ["HasFillings", "FillsVoids"]
    case Voids => ["VoidsElements", "HasOpenings"]
    case Nests => ["Decomposes"]
    case Container => ["ContainedInStructure"]
    case Group => ["HasAssignments"]
    case Aggregates => ["Decomposes"]
    case Connects => ["ConnectedTo"]
  }

  function TestOf(link: Link): RelTest {
    match link
    case Fills => TypeNamed("IFCRELFILLSELEMENT")
    case Voids => TypeNamed("IFCRELVOIDSELEMENT")
    case Nests => TypeNamed("IFCRELNESTS")
    case Container => TypeNamed("IFCRELCONTAINEDINSPATIALSTRUCTURE")
    case Group => GroupAssignment
    case Aggregates => TypeNamed("IFCRELAGGREGATES")
    case Connects => TypeNamed("IFCRELCONNECTSELEMENTS")
  }

  function TargetOf(link: Link): string {
    match link
    case Fills => "RelatedOpeningElement"
    case Voids => "RelatingBuildingElement"
    case Nests => "RelatingObject"
    case Container => "RelatingStructure"
    case Group => "RelatingGroup"
    case Aggregates => "RelatingObject"
    case Connects => "RelatingElement"
  }

  /** The items of list feature `f`; a missing list is scanned as an empty one. */
  function Listed(m: Model, o: Oid, f: string): seq<Val>
    requires o in m.objects
  {
    GetList(m, o, f).GetOr([])
  }

  /** Scans the lists named by `features` in turn; the first list that yields a target decides. */
  function LookupIn(m: Model, o: Oid, features: seq<string>, test: RelTest, target: string): (r: Outcome<Option<Oid>>)
    requires o in m.objects
    ensures r != Diverges
    ensures r.Ok? && r.value.Some? ==> r.value.value in m.objects
    decreases features
  {
    if features == [] then Ok(None)
    else
      var found :- FirstTarget(m, Listed(m, o, features[0]), test, target);
      if found.Some? then Ok(found) else LookupIn(m, o, features[1..], test, target)
  }

  function Lookup(m: Model, o: Oid, link: Link): (r: Outcome<Option<Oid>>)
    requires o in m.objects
    ensures r != Diverges
    ensures r.Ok? && r.value.Some? ==> r.value.value in m.objects
  {
    LookupIn(m, o, ListsOf(link), TestOf(link), TargetOf(link))
  }

  /** A fallback list is read only when every list before it yields no target (and throws nothing). */
  lemma {:induction false} LookupInSpec(m: Model, o: Oid, features: seq<string>, test: RelTest, target: string)
    requires o in m.objects
    ensures var r := LookupIn(m, o, features, test, target);
      (r == Ok(None) <==> forall i :: 0 <= i < |features| ==> FirstTarget(m, Listed(m, o, features[i]), test, target) == Ok(None))
      && (r.Ok? && r.value.Some? ==> exists i :: (0 <= i < |features| && FirstTarget(m, Listed(m, o, features[i]), test, target) == r
            && forall j :: 0 <= j < i ==> FirstTarget(m, Listed(m, o, features[j]), test, target) == Ok(None)))
    decreases features
  {
    if features != [] {
      LookupInSpec(m, o, features[1..], test, target);
      var r := LookupIn(m, o, features, test, target);
      var first := FirstTarget(m, Listed(m, o, features[0]), test, target);
      if first == Ok(None) {
        assert r == LookupIn(m, o, features[1..], test, target);
        if r == Ok(None) {
          forall i | 0 <= i < |features| ensures FirstTarget(m, Listed(m, o, features[i]), test, target) == Ok(None) {
            if i > 0 { assert features[i] == features[1..][i - 1]; }
          }
        }
        if forall i :: 0 <= i < |features| ==> FirstTarget(m, Listed(m, o, features[i]), test, target) == Ok(None) {
          forall i | 0 <= i < |features[1..]| ensures FirstTarget(m, Listed(m, o, features[1..][i]), test, target) == Ok(None) {
            assert features[1..][i] == features[i + 1];
          }
        }
        if r.Ok? && r.value.Some? {
          var i :| 0 <= i < |features[1..]| && FirstTarget(m, Listed(m, o, features[1..][i]), test, target) == r
            && forall j :: 0 <= j < i ==> FirstTarget(m, Listed(m, o, features[1..][j]), test, target) == Ok(None);
          assert features[1..][i] == features[i + 1];
          forall j | 0 <= j < i + 1 ensures FirstTarget(m, Listed(m, o, features[j]), test, target) == Ok(None) {
            if j > 0 { assert features[j] == features[1..][j - 1]; }
          }
        }
      }
    }
  }

  method LookupLink(m: Model, o: Oid, link: Link) returns (r: Outcome<Option<Oid>>)
    requires o in m.objects
    ensures r == Lookup(m, o, link)
  {
    var features := ListsOf(link);
    var i := 0;
    while i < |features|
      invariant 0 <= i <= |features|
      invariant LookupIn(m, o, features[i..], TestOf(link), TargetOf(link)) == Lookup(m, o, link)
    {
      assert features[i..][1..] == features[i + 1..];
      var found := FindTarget(m, Listed(m, o, features[i]), TestOf(link), TargetOf(link));
      if !found.Ok? || found.value.Some? {
        return found;
      }
      i := i + 1;
    }
    return Ok(None);
  }

  /**
   * `getParent`: the aggregate, nest and container lookups run (so they can throw) but their
   * results are dropped; the parent is the connected element, if any.
   */
  function Parent(m: Model, o: Oid): (r: Outcome<Option<Oid>>)
    requires o in m.objects
    ensures r.Ok? ==> r == Lookup(m, o, Connects)
    ensures r.Ok? ==> Lookup(m, o, Aggregates).Ok? && Lookup(m, o, Nests).Ok? && Lookup(m, o, Container).Ok?
    ensures r.Ok? && r.value.Some? ==> r.value.value in m.objects
    ensures r != Diverges
  {
    var _ :- Lookup(m, o, Aggregates);
    var _ :- Lookup(m, o, Nests);
    var _ :- Lookup(m, o, Container);
    Lookup(m, o, Connects)
  }

  /** An aggregation or nesting parent is no parent for the generic walk. */
  lemma ParentIgnoresDecomposition(m: Model, o: Oid, p: Oid)
    requires o in m.objects
    requires Lookup(m, o, Aggregates) == Ok(Some(p)) && Lookup(m, o, Nests).Ok? && Lookup(m, o, Container).Ok?
    requires Lookup(m, o, Connects) == Ok(None)
    ensures Parent(m, o) == Ok(None)
  {}

  method GetParent(m: Model, o: Oid) returns (r: Outcome<Option<Oid>>)
    requires o in m.objects
    ensures r == Parent(m, o)
  {
    var agg := LookupLink(m, o, Aggregates);
    if !agg.Ok? { return agg.PropagateFailure(); }
    var nest := LookupLink(m, o, Nests);
    if !nest.Ok? { return nest.PropagateFailure(); }
    var container := LookupLink(m, o, Container);
    if !container.Ok? { return container.PropagateFailure(); }
    r := LookupLink(m, o, Connects);
  }

  // ---------------------------------------------------------------- helpers of `matches`

  /** `isType`: the object's own class name equals `name`, ignoring case. */
  predicate IsType(m: Model, o: Oid, upperName: string)
    requires o in m.objects
  {
    Upper(ClassOf(m, o)) == upperName
  }

  /** Comparing with an upper-cased name is `equalsIgnoreCase` with the name as the source spells it. */
  lemma IsTypeIgnoresCase(m: Model, o: Oid, name: string)
    requires o in m.objects
    ensures IsType(m, o, Upper(name)) <==> EqualsIgnoreCase(name, ClassOf(m, o))
  {}


  /** `getPredefinedType`: null when the class has no such feature or it holds null, else its text. */
  function PredefinedTypeOf(m: Model, o: Oid): (r: Option<string>)
    requires o in m.objects
    ensures r.None? <==> "PredefinedType" !in m.objects[o].features || IsNull(m, m.objects[o].features["PredefinedType"])
    ensures r.Some? ==> r.value == ToText(m, m.objects[o].features["PredefinedType"])
  {
    if "PredefinedType" !in m.objects[o].features then None
    else
      var v := m.objects[o].features["PredefinedType"];
      if IsNull(m, v) then None else Some(ToText(m, v))
  }

  /** `endWithNOVALUE`: no relationship target; a failure either way, tagged by the cardinality. */
  function EndWithNoValue(c: Facets.Cardinality): (r: FacetResult)
    ensures !r.isPass && r.reason.Some?
    ensures TagIs(r.reason.value, "PROHIBITED") <==> c == Facets.PROHIBITED
    ensures TagIs(r.reason.value, "NOVALUE") <==> c != Facets.PROHIBITED
  {
    if c == Facets.PROHIBITED then FacetResult(false, Some(Tagged("PROHIBITED")))
    else FacetResult(false, Some(Tagged("NOVALUE")))
  }

  /**
   * `checkDirectTarget`: a null or blank name accepts any target; otherwise the upper-cased class
   * must equal the name and, when a type is asked for, the target's type must equal it.
   */
  function CheckDirectTarget(m: Model, target: Oid, name: Option<string>, predefinedType: Option<string>): (r: bool)
    requires target in m.objects
    ensures NullOrBlank(name) ==> r
    ensures !NullOrBlank(name) ==>
      (r <==> (Upper(ClassOf(m, target)) == name.value
        && (predefinedType.None? || PredefinedTypeOf(m, target) == predefinedType)))
  {
    if NullOrBlank(name) then true
    else if Upper(ClassOf(m, target)) != name.value then false
    else if predefinedType.None? then true
    else PredefinedTypeOf(m, target) == predefinedType
  }

  /**
   * `mkEntityOrPredefReason`: PREDEFINEDTYPE with the target's type when a requested type differs
   * from it, else ENTITY with the upper-cased class. `Map.of` refuses a null actual type.
   */
  function MkEntityOrPredefReason(m: Model, target: Oid, name: Option<string>, predefinedType: Option<string>): (r: Outcome<map<string, Datum>>)
    requires target in m.objects
    ensures !r.Ok? <==> predefinedType.Some? && PredefinedTypeOf(m, target).None?
    ensures !r.Ok? ==> r == Throws(NullPointer)
    ensures r.Ok? ==> (TagIs(r.value, "PREDEFINEDTYPE") <==> predefinedType.Some? && predefinedType != PredefinedTypeOf(m, target))
    ensures r.Ok? && TagIs(r.value, "PREDEFINEDTYPE") ==> Get(r.value, "actual") == DText(PredefinedTypeOf(m, target).value)
    ensures r.Ok? && !TagIs(r.value, "PREDEFINEDTYPE") ==> r.value == TaggedActual("ENTITY", DText(Upper(ClassOf(m, target))))
  {
    var t := Upper(ClassOf(m, target));
    var actual := PredefinedTypeOf(m, target);
    if predefinedType.Some? && predefinedType != actual then
      if actual.None? then Throws(NullPointer)
      else Ok(TaggedActual("PREDEFINEDTYPE", DText(actual.value)))
    else Ok(TaggedActual("ENTITY", DText(t)))
  }

  /** `String.equals` with a `Value` (or null) argument: a `Value` is never a `String`. */
  predicate StringEqualsValue(t: string, v: Option<Value>) {
    false
  }

  /** A `Value`'s record `equals` with a `String` (or null) argument: never equal. */
  predicate ValueEqualsString(v: Value, s: Option<string>) {
    false
  }

  /** `value.extract()` on a value that may be null. */
  function ExtractOrThrow(v: Option<Value>): (r: Outcome<string>)
    ensures r.Ok? <==> v.Some?
    ensures r.Ok? ==> r.value == Extract(v.value)
    ensures !r.Ok? ==> r == Throws(NullPointer)
  {
    if v.Some? then Ok(Extract(v.value)) else Throws(NullPointer)
  }

  // ---------------------------------------------------------------- ancestor walks

  /** The three walks: the generic one over `getParent`, the aggregation one, and the nesting one,
   * which re-reads the nest parent of the element it started from at every step. */
  datatype Walk = GenericWalk | AggregateWalk | NestWalk(element: Oid)

  predicate WalkOk(m: Model, w: Walk) {
    w.NestWalk? ==> w.element in m.objects
  }

  /** The node after `o`. */
  function Next(m: Model, w: Walk, o: Oid): (r: Outcome<Option<Oid>>)
    requires o in m.objects && WalkOk(m, w)
    ensures r.Ok? && r.value.Some? ==> r.value.value in m.objects
    ensures r != Diverges
  {
    match w
    case GenericWalk => Parent(m, o)
    case AggregateWalk => Lookup(m, o, Aggregates)
    case NestWalk(e) => Lookup(m, e, Nests)
  }

  /** The entry recorded for a visited node: its upper-cased class, with ".<type>" when a type is asked for and present. */
  function Label(m: Model, typed: bool, o: Oid): (s: string)
    requires o in m.objects
    ensures var t := Upper(ClassOf(m, o)); |t| <= |s| && s[..|t|] == t
    ensures !typed ==> s == Upper(ClassOf(m, o))
  {
    var t := Upper(ClassOf(m, o));
    if typed then
      var p := PredefinedTypeOf(m, o);
      if p.Some? then t + "." + p.value else t
    else t
  }

  /**
   * The test at a visited node. The generic and aggregation walks compare a `String` with the
   * facet's `Value`s; the nesting walk with a type asked for matches name and type.
   */
  function Hit(m: Model, name: Option<Value>, predefinedType: Option<Value>, w: Walk, o: Oid, rx: RestrictionValues.Regex): (r: Outcome<bool>)
    requires o in m.objects
    ensures !w.NestWalk? || predefinedType.None? ==> r == Ok(false)
  {
    var t := Upper(ClassOf(m, o));
    var actual := PredefinedTypeOf(m, o);
    if predefinedType.Some? then
      var wanted := predefinedType.value;
      if w.NestWalk? then
        if name.None? then Throws(NullPointer)
        else
          var a :- Values.Matches(name.value, Some(t), rx);
          if !a then Ok(false) else Values.Matches(wanted, actual, rx)
      else Ok(StringEqualsValue(t, name) && ValueEqualsString(wanted, actual))
    else Ok(StringEqualsValue(t, name))
  }

  /**
   * The walk from node `cur` with the entries recorded so far. The next node depends only on the
   * current one, so reaching a node already visited means the loop runs forever.
   */
  function WalkFrom(m: Model, name: Option<Value>, predefinedType: Option<Value>, w: Walk, cur: Option<Oid>, ancestors: seq<string>, visited: set<Oid>, rx: RestrictionValues.Regex): Outcome<(bool, seq<string>)>
    requires WalkOk(m, w) && visited <= m.objects.Keys
    requires cur.Some? ==> cur.value in m.objects && cur.value !in visited
    decreases m.objects.Keys - visited
  {
    if cur.None? then Ok((false, ancestors))
    else
      var o := cur.value;
      var recorded := ancestors + [Label(m, predefinedType.Some?, o)];
      var hit :- Hit(m, name, predefinedType, w, o, rx);
      if hit then Ok((true, recorded))
      else
        var next :- Next(m, w, o);
        if next.Some? && next.value in visited + {o} then Diverges
        else WalkFrom(m, name, predefinedType, w, next, recorded, visited + {o}, rx)
  }

  function WalkSpec(m: Model, name: Option<Value>, predefinedType: Option<Value>, w: Walk, start: Option<Oid>, rx: RestrictionValues.Regex): Outcome<(bool, seq<string>)>
    requires WalkOk(m, w)
    requires start.Some? ==> start.value in m.objects
  {
    WalkFrom(m, name, predefinedType, w, start, [], {}, rx)
  }

  /** A walk keeps the entries it was given and records one entry per node, the first for `cur`. */
  lemma {:induction false} WalkRecords(m: Model, name: Option<Value>, predefinedType: Option<Value>, w: Walk, cur: Option<Oid>, ancestors: seq<string>, visited: set<Oid>, rx: RestrictionValues.Regex)
    requires WalkOk(m, w) && visited <= m.objects.Keys
    requires cur.Some? ==> cur.value in m.objects && cur.value !in visited
    ensures var r := WalkFrom(m, name, predefinedType, w, cur, ancestors, visited, rx);
      r.Ok? ==> (|ancestors| <= |r.value.1| && r.value.1[..|ancestors|] == ancestors
        && (cur.None? ==> r.value == (false, ancestors))
        && (cur.Some? ==> |ancestors| < |r.value.1| && r.value.1[|ancestors|] == Label(m, predefinedType.Some?, cur.value)))
    decreases m.objects.Keys - visited
  {
    if cur.Some? {
      var o := cur.value;
      var recorded := ancestors + [Label(m, predefinedType.Some?, o)];
      var hit := Hit(m, name, predefinedType, w, o, rx);
      if hit.Ok? && !hit.value {
        var next := Next(m, w, o);
        if next.Ok? && !(next.value.Some? && next.value.value in visited + {o}) {
          WalkRecords(m, name, predefinedType, w, next.value, recorded, visited + {o}, rx);
          var r := WalkFrom(m, name, predefinedType, w, next.value, recorded, visited + {o}, rx);
          if r.Ok? {
            assert r.value.1[..|ancestors|] == r.value.1[..|recorded|][..|ancestors|];
            assert r.value.1[|ancestors|] == r.value.1[..|recorded|][|ancestors|];
          }
        }
      }
    }
  }

  /**
   * A failed walk over `nodes`: each node was tested and missed, recorded its label in order, and
   * led to the next one; the last had no next node.
   */
  ghost predicate FailedTrail(m: Model, name: Option<Value>, predefinedType: Option<Value>, w: Walk, rx: RestrictionValues.Regex, nodes: seq<Oid>, labels: seq<string>)
    requires WalkOk(m, w)
  {
    && |nodes| == |labels|
    && (forall k :: 0 <= k < |nodes| ==> nodes[k] in m.objects)
    && (forall k :: 0 <= k < |nodes| ==> labels[k] == Label(m, predefinedType.Some?, nodes[k]))
    && (forall k :: 0 <= k < |nodes| ==> Hit(m, name, predefinedType, w, nodes[k], rx) == Ok(false))
    && (forall k, j :: 0 <= k && j == k + 1 && j < |nodes| ==> Next(m, w, nodes[k]) == Ok(Some(nodes[j])))
    && (|nodes| > 0 ==> Next(m, w, nodes[|nodes| - 1]) == Ok(None))
  }

  /** A failed trail that starts at `cur`, and is empty when there is no `cur`. */
  ghost predicate TrailFrom(m: Model, name: Option<Value>, predefinedType: Option<Value>, w: Walk, rx: RestrictionValues.Regex, cur: Option<Oid>, nodes: seq<Oid>, labels: seq<string>)
    requires WalkOk(m, w)
  {
    && (cur.None? ==> nodes == [])
    && (cur.Some? ==> |nodes| > 0 && nodes[0] == cur.value)
    && FailedTrail(m, name, predefinedType, w, rx, nodes, labels)
  }

  /** A walk that ends without a hit recorded, after the given entries, the label of every node it visited, starting at `cur`. */
  lemma {:induction false} WalkFailureTrail(m: Model, name: Option<Value>, predefinedType: Option<Value>, w: Walk, cur: Option<Oid>, ancestors: seq<string>, visited: set<Oid>, rx: RestrictionValues.Regex)
    requires WalkOk(m, w) && visited <= m.objects.Keys
    requires cur.Some? ==> cur.value in m.objects && cur.value !in visited
    ensures var r := WalkFrom(m, name, predefinedType, w, cur, ancestors, visited, rx);
      r.Ok? && !r.value.0 ==>
        |ancestors| <= |r.value.1| && r.value.1[..|ancestors|] == ancestors
        && exists nodes :: TrailFrom(m, name, predefinedType, w, rx, cur, nodes, r.value.1[|ancestors|..])
    decreases m.objects.Keys - visited
  {
    var r := WalkFrom(m, name, predefinedType, w, cur, ancestors, visited, rx);
    WalkRecords(m, name, predefinedType, w, cur, ancestors, visited, rx);
    if r.Ok? && !r.value.0 {
      if cur.None? {
        var nodes: seq<Oid> := [];
        assert TrailFrom(m, name, predefinedType, w, rx, cur, nodes, r.value.1[|ancestors|..]);
      } else {
        var o := cur.value;
        var recorded := ancestors + [Label(m, predefinedType.Some?, o)];
        var next := WalkMissStep(m, name, predefinedType, w, o, ancestors, visited, rx);
        WalkFailureTrail(m, name, predefinedType, w, next, recorded, visited + {o}, rx);
        var later := r.value.1[|recorded|..];
        var rest :| TrailFrom(m, name, predefinedType, w, rx, next, rest, later);
        SuffixAfterEntry(r.value.1, ancestors, Label(m, predefinedType.Some?, o));
        TrailCons(m, name, predefinedType, w, rx, cur, next, rest, later, r.value.1[|ancestors|..]);
      }
    }
  }

  /** What follows a prefix is its next entry, then what follows the prefix extended by that entry. */
  lemma SuffixAfterEntry(full: seq<string>, prefix: seq<string>, entry: string)
    requires |prefix| + 1 <= |full| && full[..|prefix| + 1] == prefix + [entry]
    ensures full[|prefix|..] == [entry] + full[|prefix| + 1..]
  {
    assert full[|prefix|] == (prefix + [entry])[|prefix|];
  }

  /** One step of a walk that ends without a hit: the node missed and the walk went on from its next node. */
  lemma WalkMissStep(m: Model, name: Option<Value>, predefinedType: Option<Value>, w: Walk, o: Oid, ancestors: seq<string>, visited: set<Oid>, rx: RestrictionValues.Regex) returns (next: Option<Oid>)
    requires WalkOk(m, w) && visited <= m.objects.Keys
    requires o in m.objects && o !in visited
    requires var r := WalkFrom(m, name, predefinedType, w, Some(o), ancestors, visited, rx); r.Ok? && !r.value.0
    ensures Hit(m, name, predefinedType, w, o, rx) == Ok(false)
    ensures Next(m, w, o) == Ok(next)
    ensures next.Some? ==> next.value in m.objects && next.value !in visited + {o}
    ensures WalkFrom(m, name, predefinedType, w, Some(o), ancestors, visited, rx)
      == WalkFrom(m, name, predefinedType, w, next, ancestors + [Label(m, predefinedType.Some?, o)], visited + {o}, rx)
  {
    next := Next(m, w, o).value;
  }

  /** A missed node whose next node starts a failed trail extends that trail. */
  lemma TrailCons(m: Model, name: Option<Value>, predefinedType: Option<Value>, w: Walk, rx: RestrictionValues.Regex, cur: Option<Oid>, next: Option<Oid>, rest: seq<Oid>, later: seq<string>, labels: seq<string>)
    requires WalkOk(m, w) && cur.Some? && cur.value in m.objects
    requires TrailFrom(m, name, predefinedType, w, rx, next, rest, later)
    requires Hit(m, name, predefinedType, w, cur.value, rx) == Ok(false)
    requires Next(m, w, cur.value) == Ok(next)
    requires labels == [Label(m, predefinedType.Some?, cur.value)] + later
    ensures TrailFrom(m, name, predefinedType, w, rx, cur, [cur.value] + rest, labels)
  {
    var o := cur.value;
    var nodes := [o] + rest;
    forall k | 0 < k < |nodes|
      ensures nodes[k] == rest[k - 1] && labels[k] == later[k - 1]
    {
    }
    forall k | 0 <= k < |nodes|
      ensures nodes[k] in m.objects && labels[k] == Label(m, predefinedType.Some?, nodes[k])
      ensures Hit(m, name, predefinedType, w, nodes[k], rx) == Ok(false)
    {
    }
    forall k, j | 0 <= k && j == k + 1 && j < |nodes|
      ensures Next(m, w, nodes[k]) == Ok(Some(nodes[j]))
    {
      if k > 0 {
        assert nodes[j] == rest[k];
      }
    }
  }

  /** The generic and aggregation walks never succeed: a finished walk is a failure. */
  lemma {:induction false} UntypedComparisonNeverHits(m: Model, name: Option<Value>, predefinedType: Option<Value>, w: Walk, cur: Option<Oid>, ancestors: seq<string>, visited: set<Oid>, rx: RestrictionValues.Regex)
    requires !w.NestWalk?
    requires WalkOk(m, w) && visited <= m.objects.Keys
    requires cur.Some? ==> cur.value in m.objects && cur.value !in visited
    ensures var r := WalkFrom(m, name, predefinedType, w, cur, ancestors, visited, rx);
      r.Ok? ==> !r.value.0
    decreases m.objects.Keys - visited
  {
    if cur.Some? {
      var o := cur.value;
      var next := Next(m, w, o);
      if next.Ok? && !(next.value.Some? && next.value.value in visited + {o}) {
        UntypedComparisonNeverHits(m, name, predefinedType, w, next.value, ancestors + [Label(m, predefinedType.Some?, o)], visited + {o}, rx);
      }
    }
  }

  method WalkUp(m: Model, name: Option<Value>, predefinedType: Option<Value>, w: Walk, start: Option<Oid>, rx: RestrictionValues.Regex) returns (r: Outcome<(bool, seq<string>)>)
    requires WalkOk(m, w)
    requires start.Some? ==> start.value in m.objects
    ensures r == WalkSpec(m, name, predefinedType, w, start, rx)
  {
    var ancestors: seq<string> := [];
    var visited: set<Oid> := {};
    var cur := start;
    while cur.Some?
      invariant visited <= m.objects.Keys
      invariant cur.Some? ==> cur.value in m.objects && cur.value !in visited
      invariant WalkFrom(m, name, predefinedType, w, cur, ancestors, visited, rx) == WalkSpec(m, name, predefinedType, w, start, rx)
      decreases m.objects.Keys - visited
    {
      var o := cur.value;
      ancestors := ancestors + [Label(m, predefinedType.Some?, o)];
      var hit := Hit(m, name, predefinedType, w, o, rx);
      if !hit.Ok? {
        return hit.PropagateFailure();
      }
      if hit.value {
        return Ok((true, ancestors));
      }
      var next: Outcome<Option<Oid>>;
      match w {
        case GenericWalk => next := GetParent(m, o);
        case AggregateWalk => next := LookupLink(m, o, Aggregates);
        case NestWalk(e) => next := LookupLink(m, e, Nests);
      }
      if !next.Ok? {
        return next.PropagateFailure();
      }
      if next.value.Some? && next.value.value in visited + {o} {
        return Diverges;
      }
      visited := visited + {o};
      cur := next.value;
    }
    return Ok((false, ancestors));
  }

  // ---------------------------------------------------------------- matches

  /** The outcome of a walk: a failure carries the recorded chain as an ENTITY reason. */
  function WalkVerdict(walk: (bool, seq<string>)): (v: (bool, Reason))
    ensures v.0 == walk.0
    ensures v.0 <==> v.1.None?
    ensures !v.0 ==> v.1 == Some(TaggedActual("ENTITY", DItems(TextItems(walk.1))))
    ensures v.1.Some? ==> Resolved(v.1.value)
  {
    (walk.0, if walk.0 then None else Some(TaggedActual("ENTITY", DItems(TextItems(walk.1)))))
  }

  /** The reason tags of a relationship whose target was found. */
  predicate Resolved(reason: map<string, Datum>) {
    TagIs(reason, "ENTITY") || TagIs(reason, "PREDEFINEDTYPE")
  }

  /** The relation-less branch: walk up from the element's parent; this branch always reaches a verdict. */
  function GenericVerdict(m: Model, name: Option<Value>, predefinedType: Option<Value>, e: Oid, rx: RestrictionValues.Regex): (r: Outcome<Option<(bool, Reason)>>)
    requires e in m.objects
    ensures r.Ok? ==> r.value.Some? && (r.value.value.1.Some? ==> Resolved(r.value.value.1.value))
  {
    var start :- Parent(m, e);
    var walk :- WalkSpec(m, name, predefinedType, GenericWalk, start, rx);
    Ok(Some(WalkVerdict(walk)))
  }

  /** The aggregation and nesting branches: no first parent is no target, and a null name passes without a walk. */
  function AncestorVerdict(m: Model, name: Option<Value>, predefinedType: Option<Value>, w: Walk, start: Option<Oid>, rx: RestrictionValues.Regex): (r: Outcome<Option<(bool, Reason)>>)
    requires WalkOk(m, w) && !w.GenericWalk?
    requires start.Some? ==> start.value in m.objects
    ensures start.None? <==> r == Ok(None)
    ensures start.Some? && name.None? ==> r == Ok(Some((true, None)))
    ensures r.Ok? && r.value.Some? && r.value.value.1.Some? ==> Resolved(r.value.value.1.value)
  {
    if start.None? then Ok(None)
    else if name.None? then Ok(Some((true, None)))
    else
      var walk :- WalkSpec(m, name, predefinedType, w, start, rx);
      Ok(Some(WalkVerdict(walk)))
  }

  /** The single-hop check; `None` when there is no target. Name and type are extracted unconditionally. */
  function DirectVerdict(m: Model, name: Option<Value>, predefinedType: Option<Value>, target: Option<Oid>): (r: Outcome<Option<(bool, Reason)>>)
    requires target.Some? ==> target.value in m.objects
    ensures target.None? <==> r == Ok(None)
    ensures target.Some? && (name.None? || predefinedType.None?) ==> r == Throws(NullPointer)
    ensures r.Ok? && r.value.Some? ==> (r.value.value.0 <==> r.value.value.1.None?)
    ensures r.Ok? && r.value.Some? && r.value.value.1.Some? ==> Resolved(r.value.value.1.value)
  {
    if target.None? then Ok(None)
    else
      var n :- ExtractOrThrow(name);
      var p :- ExtractOrThrow(predefinedType);
      if CheckDirectTarget(m, target.value, Some(n), Some(p)) then Ok(Some((true, None)))
      else
        var reason :- MkEntityOrPredefReason(m, target.value, Some(n), Some(p));
        Ok(Some((false, Some(reason))))
  }

  /** The void/fill target: an opening's voided element, else the voided element of the opening this element fills. */
  function VoidTarget(m: Model, e: Oid): (r: Outcome<Option<Oid>>)
    requires e in m.objects
    ensures r.Ok? && r.value.Some? ==> r.value.value in m.objects
    ensures IsType(m, e, Opening) ==> r == Lookup(m, e, Voids)
    ensures !IsType(m, e, Opening) && Lookup(m, e, Fills) == Ok(None) ==> r == Ok(None)
    ensures !IsType(m, e, Opening) && Lookup(m, e, Fills).Ok? && Lookup(m, e, Fills).value.Some? ==>
      r == Lookup(m, Lookup(m, e, Fills).value.value, Voids)
    ensures !IsType(m, e, Opening) && !Lookup(m, e, Fills).Ok? ==> r == Lookup(m, e, Fills).PropagateFailure()
  {
    if IsType(m, e, Opening) then Lookup(m, e, Voids)
    else
      var opening :- Lookup(m, e, Fills);
      if opening.None? then Ok(None) else Lookup(m, opening.value, Voids)
  }

  const Opening := "IFCOPENINGELEMENT"
  const Aggregation := "IFCRELAGGREGATES"
  const Assignment := "IFCRELASSIGNSTOGROUP"
  const Containment := "IFCRELCONTAINEDINSPATIALSTRUCTURE"
  const Nesting := "IFCRELNESTS"
  const VoidsOrFills := "IFCRELVOIDSELEMENT IFCRELFILLSELEMENT"

  /** The branches of `matches`, chosen by the facet's relation text. */
  datatype Branch = NoRelation | AggregationBranch | AssignmentBranch | ContainmentBranch | NestingBranch | VoidBranch | OtherRelation

  function BranchOf(relation: Option<string>): (b: Branch)
    ensures b == NoRelation <==> relation.None?
    ensures b == AggregationBranch <==> relation == Some(Aggregation)
    ensures b == AssignmentBranch <==> relation == Some(Assignment)
    ensures b == ContainmentBranch <==> relation == Some(Containment)
    ensures b == NestingBranch <==> relation == Some(Nesting)
    ensures b == VoidBranch <==> relation == Some(VoidsOrFills)
  {
    if relation.None? then NoRelation
    else if relation.value == Aggregation then AggregationBranch
    else if relation.value == Assignment then AssignmentBranch
    else if relation.value == Containment then ContainmentBranch
    else if relation.value == Nesting then NestingBranch
    else if relation.value == VoidsOrFills then VoidBranch
    else OtherRelation
  }

  /**
   * The relation dispatch before the cardinality is applied: `None` when the relationship has no
   * target (`endWithNOVALUE`), else the pass flag and reason. An unknown relation fails with a
   * null reason.
   */
  function Evaluate(f: PartOf, m: Model, e: Oid, rx: RestrictionValues.Regex): (r: Outcome<Option<(bool, Reason)>>)
    requires e in m.objects
    ensures r.Ok? && r.value.Some? && r.value.value.1.Some? ==> Resolved(r.value.value.1.value)
  {
    match BranchOf(f.relation)
    case NoRelation => GenericVerdict(m, f.name, f.predefinedType, e, rx)
    case AggregationBranch =>
      var agg :- Lookup(m, e, Aggregates);
      AncestorVerdict(m, f.name, f.predefinedType, AggregateWalk, agg, rx)
    case AssignmentBranch =>
      var group :- Lookup(m, e, Group);
      DirectVerdict(m, f.name, f.predefinedType, group)
    case ContainmentBranch =>
      var container :- Lookup(m, e, Container);
      DirectVerdict(m, f.name, f.predefinedType, container)
    case NestingBranch =>
      var nest :- Lookup(m, e, Nests);
      AncestorVerdict(m, f.name, f.predefinedType, NestWalk(e), nest, rx)
    case VoidBranch =>
      var building :- VoidTarget(m, e);
      DirectVerdict(m, f.name, f.predefinedType, building)
    case OtherRelation => Ok(Some((false, None)))
  }

  /** `matches`: no target ends with NOVALUE (or PROHIBITED); a prohibited facet negates the verdict. */
  function MatchesSpec(f: PartOf, m: Model, e: Oid, rx: RestrictionValues.Regex): Outcome<FacetResult>
    requires e in m.objects
  {
    var verdict :- Evaluate(f, m, e, rx);
    if verdict.None? then Ok(EndWithNoValue(f.cardinality))
    else if f.cardinality == Facets.PROHIBITED then Ok(FacetResult(!verdict.value.0, Some(Tagged("PROHIBITED"))))
    else Ok(FacetResult(verdict.value.0, verdict.value.1))
  }

  /**
   * A prohibited facet against the same facet required: both end the same way; where a target
   * resolved the verdict is negated, and where none did both fail.
   */
  lemma ProhibitedInverts(f: PartOf, m: Model, e: Oid, rx: RestrictionValues.Regex)
    requires e in m.objects && f.cardinality == Facets.PROHIBITED
    ensures var p := MatchesSpec(f, m, e, rx);
      var q := MatchesSpec(f.(cardinality := Facets.REQUIRED), m, e, rx);
      (p.Ok? <==> q.Ok?) && (!p.Ok? ==> p == q)
      && (p.Ok? ==> p.value.reason == Some(Tagged("PROHIBITED")))
      && (q.Ok? && q.value.reason == Some(Tagged("NOVALUE")) ==> !p.value.isPass && !q.value.isPass)
      && (q.Ok? && q.value.reason != Some(Tagged("NOVALUE")) ==> p.value.isPass == !q.value.isPass)
  {
    var g := f.(cardinality := Facets.REQUIRED);
    assert Evaluate(f, m, e, rx) == Evaluate(g, m, e, rx);
    assert !Resolved(Tagged("NOVALUE"));
  }

  /** Without a relation the walk never succeeds: a required facet fails with the chain, a prohibited one passes. */
  lemma GenericWalkNeverPasses(f: PartOf, m: Model, e: Oid, rx: RestrictionValues.Regex)
    requires e in m.objects && f.relation.None?
    ensures var r := MatchesSpec(f, m, e, rx);
      r.Ok? ==> ((r.value.isPass <==> f.cardinality == Facets.PROHIBITED)
        && (f.cardinality != Facets.PROHIBITED ==> r.value.reason.Some? && TagIs(r.value.reason.value, "ENTITY")))
  {
    var start := Parent(m, e);
    if start.Ok? {
      UntypedComparisonNeverHits(m, f.name, f.predefinedType, GenericWalk, start.value, [], {}, rx);
    }
  }

  /** A named aggregation facet never passes unless prohibited: no parent gives NOVALUE, a walk gives ENTITY. */
  lemma NamedAggregationNeverPasses(f: PartOf, m: Model, e: Oid, rx: RestrictionValues.Regex)
    requires e in m.objects && f.relation == Some(Aggregation) && f.name.Some?
    requires f.cardinality != Facets.PROHIBITED
    ensures var r := MatchesSpec(f, m, e, rx);
      r.Ok? ==> (!r.value.isPass && r.value.reason.Some?
        && (TagIs(r.value.reason.value, "NOVALUE") <==> Lookup(m, e, Aggregates) == Ok(None))
        && (TagIs(r.value.reason.value, "ENTITY") <==> Lookup(m, e, Aggregates) != Ok(None)))
  {
    var agg := Lookup(m, e, Aggregates);
    if agg.Ok? && agg.value.Some? {
      UntypedComparisonNeverHits(m, f.name, f.predefinedType, AggregateWalk, agg.value, [], {}, rx);
    }
    assert !TagIs(Tagged("NOVALUE"), "ENTITY");
  }

  /**
   * The nesting walk settles at the first nest parent: a hit passes, a miss re-reads the same
   * parent for ever. Without a requested type every miss, so a named facet never ends.
   */
  lemma NestingWalkStaysPut(f: PartOf, m: Model, e: Oid, n: Oid, rx: RestrictionValues.Regex)
    requires e in m.objects && f.relation == Some(Nesting) && f.name.Some?
    requires Lookup(m, e, Nests) == Ok(Some(n))
    ensures n in m.objects
    ensures Hit(m, f.name, f.predefinedType, NestWalk(e), n, rx) == Ok(false) ==> MatchesSpec(f, m, e, rx) == Diverges
    ensures f.predefinedType.None? ==> MatchesSpec(f, m, e, rx) == Diverges
    ensures Hit(m, f.name, f.predefinedType, NestWalk(e), n, rx) == Ok(true) && f.cardinality != Facets.PROHIBITED ==>
      MatchesSpec(f, m, e, rx) == Ok(FacetResult(true, None))
  {}

  /** The single-hop relations need both a name and a type once a target resolves. */
  lemma DirectTargetNeedsNameAndType(f: PartOf, m: Model, e: Oid, rx: RestrictionValues.Regex)
    requires e in m.objects && f.relation in {Some(Assignment), Some(Containment)}
    requires f.name.None? || f.predefinedType.None?
    ensures var link := if f.relation == Some(Assignment) then Group else Container;
      Lookup(m, e, link).Ok? && Lookup(m, e, link).value.Some? ==> MatchesSpec(f, m, e, rx) == Throws(NullPointer)
  {}

  /** An unset name extracts to the empty text, so a direct target of any class passes. */
  lemma UnsetNameAcceptsAnyGroup(f: PartOf, m: Model, e: Oid, g: Oid, rx: RestrictionValues.Regex)
    requires e in m.objects && f.relation == Some(Assignment)
    requires f.name == Some(Simple(None)) && f.predefinedType.Some?
    requires Lookup(m, e, Group) == Ok(Some(g))
    ensures f.cardinality != Facets.PROHIBITED ==> MatchesSpec(f, m, e, rx) == Ok(FacetResult(true, None))
    ensures f.cardinality == Facets.PROHIBITED ==> MatchesSpec(f, m, e, rx) == Ok(FacetResult(false, Some(Tagged("PROHIBITED"))))
  {
    assert IsBlank(Extract(Simple(None)));
  }

  /** A relation name the facet does not know fails with a null reason, or passes when prohibited. */
  lemma UnknownRelation(f: PartOf, m: Model, e: Oid, rx: RestrictionValues.Regex)
    requires e in m.objects && f.relation.Some?
    requires f.relation.value !in {Aggregation, Assignment, Containment, Nesting, VoidsOrFills}
    ensures f.cardinality != Facets.PROHIBITED ==> MatchesSpec(f, m, e, rx) == Ok(FacetResult(false, None))
    ensures f.cardinality == Facets.PROHIBITED ==> MatchesSpec(f, m, e, rx) == Ok(FacetResult(true, Some(Tagged("PROHIBITED"))))
  {}

  method DirectCheck(m: Model, f: PartOf, target: Option<Oid>) returns (r: Outcome<Option<(bool, Reason)>>)
    requires target.Some? ==> target.value in m.objects
    ensures r == DirectVerdict(m, f.name, f.predefinedType, target)
  {
    if target.None? {
      return Ok(None);
    }
    var n := ExtractOrThrow(f.name);
    if !n.Ok? { return n.PropagateFailure(); }
    var p := ExtractOrThrow(f.predefinedType);
    if !p.Ok? { return p.PropagateFailure(); }
    if CheckDirectTarget(m, target.value, Some(n.value), Some(p.value)) {
      return Ok(Some((true, None)));
    }
    var reason := MkEntityOrPredefReason(m, target.value, Some(n.value), Some(p.value));
    if !reason.Ok? { return reason.PropagateFailure(); }
    return Ok(Some((false, Some(reason.value))));
  }

  method Dispatch(f: PartOf, m: Model, e: Oid, rx: RestrictionValues.Regex) returns (r: Outcome<Option<(bool, Reason)>>)
    requires e in m.objects
    ensures r == Evaluate(f, m, e, rx)
  {
    if f.relation.None? {
      var start := GetParent(m, e);
      if !start.Ok? { return start.PropagateFailure(); }
      var walk := WalkUp(m, f.name, f.predefinedType, GenericWalk, start.value, rx);
      if !walk.Ok? { return walk.PropagateFailure(); }
      return Ok(Some(WalkVerdict(walk.value)));
    } else if f.relation.value == Aggregation || f.relation.value == Nesting {
      var link := if f.relation.value == Aggregation then Aggregates else Nests;
      var parent := LookupLink(m, e, link);
      if !parent.Ok? { return parent.PropagateFailure(); }
      if parent.value.None? { return Ok(None); }
      if f.name.None? { return Ok(Some((true, None))); }
      var walk := WalkUp(m, f.name, f.predefinedType, if link == Aggregates then AggregateWalk else NestWalk(e), parent.value, rx);
      if !walk.Ok? { return walk.PropagateFailure(); }
      return Ok(Some(WalkVerdict(walk.value)));
    } else if f.relation.value == Assignment || f.relation.value == Containment {
      var target := LookupLink(m, e, if f.relation.value == Assignment then Group else Container);
      if !target.Ok? { return target.PropagateFailure(); }
      r := DirectCheck(m, f, target.value);
    } else if f.relation.value == VoidsOrFills {
      var building: Outcome<Option<Oid>>;
      if IsType(m, e, Opening) {
        building := LookupLink(m, e, Voids);
      } else {
        var opening := LookupLink(m, e, Fills);
        if !opening.Ok? { return opening.PropagateFailure(); }
        building := Ok(None);
        if opening.value.Some? {
          building := LookupLink(m, opening.value.value, Voids);
        }
      }
      if !building.Ok? { return building.PropagateFailure(); }
      r := DirectCheck(m, f, building.value);
    } else {
      r := Ok(Some((false, None)));
    }
  }

  method Matches(f: PartOf, m: Model, e: Oid, rx: RestrictionValues.Regex) returns (r: Outcome<FacetResult>)
    requires e in m.objects
    ensures r == MatchesSpec(f, m, e, rx)
  {
    var verdict := Dispatch(f, m, e, rx);
    if !verdict.Ok? {
      return verdict.PropagateFailure();
    }
    if verdict.value.None? {
      return Ok(EndWithNoValue(f.cardinality));
    }
    var (isPass, reason) := verdict.value.value;
    if f.cardinality == Facets.PROHIBITED {
      return Ok(FacetResult(!isPass, Some(Tagged("PROHIBITED"))));
    }
    return Ok(FacetResult(isPass, reason));
  }

  function Type(f: PartOf): (t: Facets.FacetType)
    ensures t == Facets.PARTOF
  {
    Facets.PARTOF
  }
}
