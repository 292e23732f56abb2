/**
 * Facet results: a pass flag and a reason map (`type` tag plus details such as `actual`), and
 * the per-facet `to_String` that turns a reason into the message a report prints.
 */
module Results {
  import opened Wrappers
  import opened JavaStrings

  /** A value stored in a reason map, as far as rendering sees it: null, a text, or a list. */
  datatype Datum = DNull | DText(s: string) | DItems(items: seq<Datum>)

  /** A reason map; `None` is a null map. */
  type Reason = Option<map<string, Datum>>

  datatype FacetResult = FacetResult(isPass: bool, reason: Reason)

  /** The kinds of result a facet produces, each with its own `to_String`. */
  datatype ResultKind = EntityKind | AttributeKind | ClassificationKind | PartOfKind | PropertyKind

  /** `String.valueOf` of a stored datum; lists render as `[a, b]`. */
  function Render(d: Datum): string {
    match d
    case DNull => "null"
    case DText(s) => s
    case DItems(items) => "[" + RenderItems(items) + "]"
  }

  function RenderItems(items: seq<Datum>): string
    decreases items
  {
    if items == [] then ""
    else if |items| == 1 then Render(items[0])
    else Render(items[0]) + ", " + RenderItems(items[1..])
  }

  /** A `List<String>` stored in a reason. */
  function TextItems(ss: seq<string>): (r: seq<Datum>)
    ensures |r| == |ss| && forall i :: 0 <= i < |ss| ==> r[i] == DText(ss[i])
  {
    if ss == [] then [] else [DText(ss[0])] + TextItems(ss[1..])
  }

  /** `reason.get(key)`: a missing key reads as null. */
  function Get(r: map<string, Datum>, key: string): Datum {
    if key in r then r[key] else DNull
  }

  /** The reason's `type` tag is the literal `t`. */
  predicate TagIs(r: map<string, Datum>, t: string) {
    Get(r, "type") == DText(t)
  }

  /** `Map.of("type", t)`. */
  function Tagged(t: string): (r: map<string, Datum>)
    ensures TagIs(r, t)
  {
    map["type" := DText(t)]
  }

  /** `Map.of("type", t, "actual", a)`. */
  function TaggedActual(t: string, a: Datum): (r: map<string, Datum>)
    ensures TagIs(r, t) && Get(r, "actual") == a
  {
    map["type" := DText(t), "actual" := a]
  }

  /** `EntityResult.to_String`. */
  function EntityMessage(reason: Reason): (r: Outcome<string>)
    ensures r.Ok? <==> reason.Some?
    ensures r.Ok? ==> (r.value != "" <==> TagIs(reason.value, "NAME") || TagIs(reason.value, "PREDEFINEDTYPE"))
  {
    var m :- NonNull(reason);
    if TagIs(m, "NAME") then Ok("the entity class " + Render(Get(m, "actual")) + " does not meet the required IFC class")
    else if TagIs(m, "PREDEFINEDTYPE") then Ok("The predefined type " + Render(Get(m, "actual")) + " does not meet the required type")
    else Ok("")
  }

  /** `AttributeResult.to_String`. */
  function AttributeMessage(reason: Reason): (r: Outcome<string>)
    ensures r.Ok? <==> reason.Some?
    ensures r.Ok? ==> (r.value != "" <==>
      TagIs(reason.value, "NOVALUE") || TagIs(reason.value, "FALSEY") || TagIs(reason.value, "INVALID")
      || TagIs(reason.value, "VALUE") || TagIs(reason.value, "PROHIBITED"))
  {
    var m :- NonNull(reason);
    if TagIs(m, "NOVALUE") then Ok("The required attribute did not exist")
    else if TagIs(m, "FALSEY") then Ok("The attribute value" + Render(Get(m, "actual")) + " is empty")
    else if TagIs(m, "INVALID") then Ok("An invalid attribute name was specified in the IDS")
    else if TagIs(m, "VALUE") then Ok("The attribute value " + Render(Get(m, "actual")) + " does not match the requirement")
    else if TagIs(m, "PROHIBITED") then Ok("The attribute value should not have met the requirement")
    else Ok("")
  }

  /**
   * `ClassificationResult.to_String` as written: the prohibition branch compares the tag with
   * "PROHIBITED " (trailing space), a tag no facet produces.
   */
  function ClassificationMessageAsWritten(reason: Reason): (r: Outcome<string>)
    ensures r.Ok? <==> reason.Some?
    ensures r.Ok? ==> (r.value != "" <==>
      TagIs(reason.value, "NOVALUE") || TagIs(reason.value, "VALUE") || TagIs(reason.value, "SYSTEM")
      || TagIs(reason.value, "PROHIBITED "))
  {
    var m :- NonNull(reason);
    if TagIs(m, "NOVALUE") then Ok("The entity has no classification")
    else if TagIs(m, "VALUE") then Ok("The references " + Render(Get(m, "actual")) + " do not match the requirements")
    else if TagIs(m, "SYSTEM") then Ok("The systems " + Render(Get(m, "actual")) + " do not match the requirements")
    else if TagIs(m, "PROHIBITED ") then Ok("The classification should not have met the requirement")
    else Ok("")
  }

  /** `ClassificationResult.to_String` with the prohibition tag the classification facet emits. */
  function ClassificationMessage(reason: Reason): (r: Outcome<string>)
    ensures r.Ok? <==> reason.Some?
    ensures r.Ok? ==> (r.value != "" <==>
      TagIs(reason.value, "NOVALUE") || TagIs(reason.value, "VALUE") || TagIs(reason.value, "SYSTEM")
      || TagIs(reason.value, "PROHIBITED"))
  {
    var m :- NonNull(reason);
    if TagIs(m, "NOVALUE") then Ok("The entity has no classification")
    else if TagIs(m, "VALUE") then Ok("The references " + Render(Get(m, "actual")) + " do not match the requirements")
    else if TagIs(m, "SYSTEM") then Ok("The systems " + Render(Get(m, "actual")) + " do not match the requirements")
    else if TagIs(m, "PROHIBITED") then Ok("The classification should not have met the requirement")
    else Ok("")
  }

  /** The prohibition reason renders nothing as written and the intended message once corrected. */
  lemma ProhibitedClassificationMessage()
    ensures ClassificationMessageAsWritten(Some(Tagged("PROHIBITED"))) == Ok("")
    ensures ClassificationMessage(Some(Tagged("PROHIBITED"))) == Ok("The classification should not have met the requirement")
  {
    assert !TagIs(Tagged("PROHIBITED"), "PROHIBITED ") by {
      assert "PROHIBITED" != "PROHIBITED " by { assert |"PROHIBITED"| != |"PROHIBITED "|; }
    }
  }

  /** `PartOfResult.to_String`. */
  function PartOfMessage(reason: Reason): (r: Outcome<string>)
    ensures r.Ok? <==> reason.Some?
    ensures r.Ok? ==> (r.value != "" <==>
      TagIs(reason.value, "NOVALUE") || TagIs(reason.value, "ENTITY") || TagIs(reason.value, "PREDEFINEDTYPE")
      || TagIs(reason.value, "PROHIBITED"))
  {
    var m :- NonNull(reason);
    if TagIs(m, "NOVALUE") then Ok("The entity has no relationship")
    else if TagIs(m, "ENTITY") then Ok("The entity has a relationship with incorrect entities: " + Render(Get(m, "actual")))
    else if TagIs(m, "PREDEFINEDTYPE") then Ok("The entity has a relationship with incorrect predefined type: " + Render(Get(m, "actual")))
    else if TagIs(m, "PROHIBITED") then Ok("The relationship should not have met the requirement")
    else Ok("")
  }

  /** `PropertyResult.to_String`; a one-element list of values is rendered by its element. */
  function PropertyMessage(reason: Reason): (r: Outcome<string>)
    ensures r.Ok? <==> reason.Some?
    ensures r.Ok? ==> (r.value != "" <==>
      TagIs(reason.value, "NOPSET") || TagIs(reason.value, "NOVALUE") || TagIs(reason.value, "DATATYPE")
      || TagIs(reason.value, "VALUE") || TagIs(reason.value, "PROHIBITED"))
  {
    var m :- NonNull(reason);
    if TagIs(m, "NOPSET") then Ok("The required property set does not exist")
    else if TagIs(m, "NOVALUE") then Ok("The property set does not contain the required property")
    else if TagIs(m, "DATATYPE") then
      Ok("The property's data type " + Render(Get(m, "actual")) + " does not match the required data type of" + Render(Get(m, "dataType")))
    else if TagIs(m, "VALUE") then
      var a := Get(m, "actual");
      if a.DItems? && |a.items| == 1 then Ok("The property value" + Render(a.items[0]) + " does not match the requirement")
      else Ok("The property values " + Render(a) + " do not meet the requirement")
    else if TagIs(m, "PROHIBITED") then Ok("The property should not have met the requirement")
    else Ok("")
  }

  /** A one-element list and its element alone render differently: singular wording, no space. */
  lemma PropertyValueWording(x: string)
    ensures PropertyMessage(Some(TaggedActual("VALUE", DItems([DText(x)]))))
      == Ok("The property value" + x + " does not match the requirement")
    ensures PropertyMessage(Some(TaggedActual("VALUE", DText(x))))
      == Ok("The property values " + x + " do not meet the requirement")
  {}

  /** A null reason cannot be rendered. */
  function NonNull(reason: Reason): (r: Outcome<map<string, Datum>>)
    ensures r.Ok? <==> reason.Some?
    ensures r.Ok? ==> r.value == reason.value
    ensures !r.Ok? ==> r == Throws(NullPointer)
  {
    if reason.Some? then Ok(reason.value) else Throws(NullPointer)
  }

  /** The message for a result of the given kind (the classification one as corrected). */
  function Message(kind: ResultKind, res: FacetResult): (r: Outcome<string>)
    ensures r.Ok? <==> res.reason.Some?
  {
    match kind
    case EntityKind => EntityMessage(res.reason)
    case AttributeKind => AttributeMessage(res.reason)
    case ClassificationKind => ClassificationMessage(res.reason)
    case PartOfKind => PartOfMessage(res.reason)
    case PropertyKind => PropertyMessage(res.reason)
  }

  /** The message for a result of the given kind, with the classification message as written. */
  function MessageAsWritten(kind: ResultKind, res: FacetResult): (r: Outcome<string>)
    ensures r.Ok? <==> res.reason.Some?
    ensures kind != ClassificationKind ==> r == Message(kind, res)
  {
    if kind == ClassificationKind then ClassificationMessageAsWritten(res.reason) else Message(kind, res)
  }

  /** A prohibited classification result renders nothing as written, and its sentence as corrected. */
  lemma ProhibitedClassificationResultMessage()
    ensures MessageAsWritten(ClassificationKind, FacetResult(false, Some(Tagged("PROHIBITED")))) == Ok("")
    ensures Message(ClassificationKind, FacetResult(false, Some(Tagged("PROHIBITED"))))
      == Ok("The classification should not have met the requirement")
  {
    ProhibitedClassificationMessage();
  }

  /** Every tag the classification facet produces renders a non-empty message. */
  lemma ClassificationTagsRender(b: bool, t: string, a: Datum)
    requires t in {"NOVALUE", "VALUE", "SYSTEM", "PROHIBITED"}
    ensures Message(ClassificationKind, FacetResult(b, Some(TaggedActual(t, a)))).Ok?
    ensures Message(ClassificationKind, FacetResult(b, Some(TaggedActual(t, a)))).value != ""
  {}

  /** Every tag the part-of facet produces renders a non-empty message. */
  lemma PartOfTagsRender(b: bool, t: string, a: Datum)
    requires t in {"NOVALUE", "ENTITY", "PREDEFINEDTYPE", "PROHIBITED"}
    ensures Message(PartOfKind, FacetResult(b, Some(TaggedActual(t, a)))).Ok?
    ensures Message(PartOfKind, FacetResult(b, Some(TaggedActual(t, a)))).value != ""
  {}

  /** Every tag the property facet produces renders a non-empty message. */
  lemma PropertyTagsRender(b: bool, t: string, a: Datum)
    requires t in {"NOPSET", "NOVALUE", "DATATYPE", "VALUE", "PROHIBITED"}
    ensures Message(PropertyKind, FacetResult(b, Some(TaggedActual(t, a)))).Ok?
    ensures Message(PropertyKind, FacetResult(b, Some(TaggedActual(t, a)))).value != ""
  {}
}
