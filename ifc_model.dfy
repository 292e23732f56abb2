/**
 * The IFC model as the facets see it: a finite graph of objects keyed by object id. Each
 * object has a class, its supertypes, its structural features in declaration order, and the
 * text its `toString` renders. A reference to an id that is not in the model stands for null.
 */
module IfcModel {
  import opened Wrappers
  import opened JavaStrings

  type Oid = int

  /** A Java value held in a feature, a list or a property bag. */
  datatype Val =
    | Null
    | Str(s: string)                      // java.lang.String
    | Scalar(cls: string, text: string)   // any other boxed value (Long, Double, Boolean, ...)
    | Enum(cls: string, name: string)     // an enum constant (e.g. a Tristate)
    | Ref(oid: Oid)                       // an IdEObject
    | List(items: seq<Val>)

  datatype Obj = Obj(cls: string, supers: seq<string>, featureNames: seq<string>, features: map<string, Val>, text: string)

  /** A class of the schema package and the attributes it declares itself. */
  datatype ClassDecl = ClassDecl(name: string, attributes: seq<string>)

  /** `classes` is the package's classifier order, `oids` the model's instance order. */
  datatype Model = Model(schema: string, classes: seq<ClassDecl>, oids: seq<Oid>, objects: map<Oid, Obj>)

  predicate IsNumberClass(cls: string) {
    cls in {"Byte", "Short", "Integer", "Long", "Float", "Double", "BigInteger", "BigDecimal"}
  }

  /** `getClass().getSimpleName()` of a value that is not a model object. */
  function SimpleClassName(v: Val): string {
    match v
    case Null => "null"
    case Str(_) => "String"
    case Scalar(c, _) => c
    case Enum(c, _) => c
    case Ref(_) => "IdEObject"
    case List(_) => "ArrayList"
  }

  predicate Live(m: Model, v: Val) {
    v.Ref? && v.oid in m.objects
  }

  /** A Java null: the null value itself, or a reference to an object the model does not hold. */
  predicate IsNull(m: Model, v: Val) {
    v.Null? || (v.Ref? && v.oid !in m.objects)
  }

  /** An element of a relation list used as an object: null (or dangling) throws, a non-object fails its cast. */
  function AsObject(m: Model, v: Val): (r: Outcome<Oid>)
    ensures r.Ok? <==> Live(m, v)
    ensures r.Ok? ==> r.value == v.oid && r.value in m.objects
  {
    if Live(m, v) then Ok(v.oid)
    else if v.Null? || v.Ref? then Throws(NullPointer)
    else Throws(ClassCast)
  }

  function ClassOf(m: Model, o: Oid): string
    requires o in m.objects
  {
    m.objects[o].cls
  }

  /** The object is of class `cls` or one of its subtypes. */
  predicate IsA(m: Model, o: Oid, cls: string)
    requires o in m.objects
  {
    m.objects[o].cls == cls || cls in m.objects[o].supers
  }

  /** `getEStructuralFeature(f)` then `eGet`: an absent feature throws. */
  function EGet(m: Model, o: Oid, f: string): (r: Outcome<Val>)
    requires o in m.objects
    ensures r.Ok? <==> f in m.objects[o].features
    ensures r.Ok? ==> r.value == m.objects[o].features[f]
    ensures !r.Ok? ==> r == Throws(NullPointer)
  {
    if f in m.objects[o].features then Ok(m.objects[o].features[f]) else Throws(NullPointer)
  }

  /** The feature's value, or null when the class has no such feature. */
  function FeatureValue(m: Model, o: Oid, f: string): Val
    requires o in m.objects
  {
    if f in m.objects[o].features then m.objects[o].features[f] else Null
  }

  /** `getString`: the feature's text when it holds a string, else null. */
  function GetString(m: Model, o: Oid, f: string): (r: Option<string>)
    requires o in m.objects
    ensures r.Some? <==> FeatureValue(m, o, f).Str?
  {
    var v := FeatureValue(m, o, f);
    if v.Str? then Some(v.s) else None
  }

  /** `getList`: the feature's items when it holds a list, else null. */
  function GetList(m: Model, o: Oid, f: string): (r: Option<seq<Val>>)
    requires o in m.objects
    ensures r.Some? <==> FeatureValue(m, o, f).List?
  {
    var v := FeatureValue(m, o, f);
    if v.List? then Some(v.items) else None
  }

  /** `getObject`/`getIdEObject`: the referenced object, else null. */
  function GetObject(m: Model, o: Oid, f: string): (r: Option<Oid>)
    requires o in m.objects
    ensures r.Some? <==> Live(m, FeatureValue(m, o, f))
    ensures r.Some? ==> r.value in m.objects
  {
    var v := FeatureValue(m, o, f);
    if Live(m, v) then Some(v.oid) else None
  }

  /** `tryGet`: the value of the first listed feature that holds a non-null value, else null. */
  function TryGet(m: Model, o: Oid, names: seq<string>): (r: Val)
    requires o in m.objects
    ensures r != Null ==> exists i :: 0 <= i < |names| && FeatureValue(m, o, names[i]) == r
    ensures r == Null ==> forall i :: 0 <= i < |names| ==> FeatureValue(m, o, names[i]) == Null
  {
    if names == [] then Null
    else if FeatureValue(m, o, names[0]) != Null then FeatureValue(m, o, names[0])
    else TryGet(m, o, names[1..])
  }

  /** The model's instances, in model order, that satisfy `IsA(cls)` (`getAllWithSubTypes`). */
  function AllWithSubTypes(m: Model, cls: string, oids: seq<Oid>): (r: seq<Oid>)
    ensures forall x :: x in r <==> x in oids && x in m.objects && IsA(m, x, cls)
  {
    if oids == [] then []
    else
      var rest := AllWithSubTypes(m, cls, oids[1..]);
      if oids[0] in m.objects && IsA(m, oids[0], cls) then [oids[0]] + rest else rest
  }

  /** The model's instances, in model order, whose class is exactly `cls` (`getAll`). */
  function AllOf(m: Model, cls: string, oids: seq<Oid>): (r: seq<Oid>)
    ensures forall x :: x in r <==> x in oids && x in m.objects && m.objects[x].cls == cls
  {
    if oids == [] then []
    else
      var rest := AllOf(m, cls, oids[1..]);
      if oids[0] in m.objects && m.objects[oids[0]].cls == cls then [oids[0]] + rest else rest
  }

  /** No object id occurs twice. */
  predicate Distinct(s: seq<Oid>) {
    forall i, j :: 0 <= i < j < |s| ==> s[i] != s[j]
  }

  /**
   * `for (x : xs) if (seen.add(x)) acc.add(x)`: appends, in order, each id not yet collected,
   * with `seen` standing for the ids already in `acc`.
   */
  function AddUnseen(acc: seq<Oid>, xs: seq<Oid>): seq<Oid>
    decreases xs
  {
    if xs == [] then acc
    else AddUnseen(if xs[0] in acc then acc else acc + [xs[0]], xs[1..])
  }

  /** Collecting keeps what was there, adds exactly the new ids, and never repeats one. */
  lemma {:induction false} AddUnseenSpec(acc: seq<Oid>, xs: seq<Oid>)
    ensures var r := AddUnseen(acc, xs);
      |acc| <= |r| && r[..|acc|] == acc
      && (forall x :: x in r <==> x in acc || x in xs)
      && (Distinct(acc) ==> Distinct(r))
    decreases xs
  {
    if xs != [] {
      var next := if xs[0] in acc then acc else acc + [xs[0]];
      AddUnseenSpec(next, xs[1..]);
      assert forall x :: x in xs <==> x == xs[0] || x in xs[1..] by {
        assert xs == [xs[0]] + xs[1..];
      }
      var r := AddUnseen(next, xs[1..]);
      assert r[..|acc|] == next[..|next|][..|acc|];
    }
  }

  /** `getEClassifier(name) instanceof EClass`. */
  predicate HasClass(m: Model, name: string) {
    exists i :: 0 <= i < |m.classes| && m.classes[i].name == name
  }

  /** `String.valueOf`: objects render their own text, lists as `[a, b]`, null as "null". */
  function ToText(m: Model, v: Val): string
    decreases v, 1
  {
    match v
    case Null => "null"
    case Str(s) => s
    case Scalar(_, t) => t
    case Enum(_, n) => n
    case Ref(o) => if o in m.objects then m.objects[o].text else "null"
    case List(items) => "[" + ItemsText(m, v, items) + "]"
  }

  /** The items of list `owner`, rendered and joined by ", ". */
  function ItemsText(m: Model, owner: Val, items: seq<Val>): string
    requires forall x :: x in items ==> x < owner
    decreases owner, 0, |items|
  {
    if items == [] then ""
    else
      assert items[0] in items;
      if |items| == 1 then ToText(m, items[0])
      else
        assert forall x :: x in items[1..] ==> x in items;
        ToText(m, items[0]) + ", " + ItemsText(m, owner, items[1..])
  }

  /** Rendering a list brackets it. */
  lemma ListTextBracketed(m: Model, items: seq<Val>)
    ensures var t := ToText(m, List(items)); |t| >= 2 && t[0] == '[' && t[|t| - 1] == ']'
  {}

  /** A one-element list renders as its element in brackets. */
  lemma SingletonListText(m: Model, x: Val)
    ensures ToText(m, List([x])) == "[" + ToText(m, x) + "]"
  {
    assert x in [x];
  }
}
