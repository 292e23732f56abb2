/**
 * The entity facet: an IFC class name and an optional predefined type, normalised when the
 * facet is built, with the three sentence templates a report uses.
 */
module EntityFacet {
  import opened Wrappers
  import opened JavaStrings
  import opened IfcModel
  import Facets

  datatype Entity = Entity(
    name: string,
    predefinedType: Option<string>,
    instructions: Option<string>,
    applicabilityTemplate: string,
    requirementTemplate: string,
    prohibitedTemplate: string)

  /** `x == null || x.isBlank() ? null : x`. */
  function BlankToNull(s: Option<string>): (r: Option<string>)
    ensures r.None? <==> NullOrBlank(s)
    ensures r.Some? ==> r == s
  {
    if NullOrBlank(s) then None else s
  }

  /** The subject of a template: "<name> data", with " of type <type>" for a non-null type argument. */
  function Subject(name: Option<string>, predefinedType: Option<string>): string {
    OrNull(name) + " data" + (if predefinedType.Some? then " of type " + predefinedType.value else "")
  }

  /**
   * The constructor. The stored name falls back to "Unnamed", the stored type and instructions
   * to null; the templates are built from the arguments as given, before normalisation.
   */
  function Make(name: Option<string>, predefinedType: Option<string>, instructions: Option<string>): (e: Entity)
    ensures NullOrBlank(name) ==> e.name == "Unnamed"
    ensures !NullOrBlank(name) ==> e.name == name.value
    ensures e.predefinedType.None? <==> NullOrBlank(predefinedType)
    ensures e.predefinedType.Some? ==> e.predefinedType == predefinedType
    ensures e.instructions.None? <==> NullOrBlank(instructions)
    ensures e.instructions.Some? ==> e.instructions == instructions
    ensures e.applicabilityTemplate == "All " + Subject(name, predefinedType)
    ensures e.requirementTemplate == "Shall be " + Subject(name, predefinedType)
    ensures e.prohibitedTemplate == "Shall not be " + Subject(name, predefinedType)
  {
    Entity(
      if NullOrBlank(name) then "Unnamed" else name.value,
      BlankToNull(predefinedType),
      BlankToNull(instructions),
      "All " + Subject(name, predefinedType),
      "Shall be " + Subject(name, predefinedType),
      "Shall not be " + Subject(name, predefinedType))
  }

  /** A blank but non-null type is dropped from the facet yet still spoken of in its templates. */
  lemma BlankTypeStillInTemplates(name: string)
    ensures Make(Some(name), Some(" "), None).predefinedType == None
    ensures Make(Some(name), Some(" "), None).applicabilityTemplate == "All " + name + " data of type  "
  {
    assert IsBlank(" ") by { assert IsWhitespace(" "[0]); }
  }

  /** A null name is stored as "Unnamed" but rendered as "null" in the templates. */
  lemma NullNameTemplates()
    ensures Make(None, None, None).name == "Unnamed"
    ensures Make(None, None, None).requirementTemplate == "Shall be null data"
  {}

  /** The templates differ only in their lead words. */
  lemma TemplatesShareSubject(name: Option<string>, predefinedType: Option<string>, instructions: Option<string>)
    ensures var e := Make(name, predefinedType, instructions);
      e.applicabilityTemplate[4..] == e.requirementTemplate[9..] == e.prohibitedTemplate[13..]
  {}

  /** `filter` returns null whatever the model; the loop it opens has an empty body. */
  function Filter(f: Entity, m: Model): (r: Option<seq<Oid>>)
    ensures r.None?
  {
    None
  }

  function Type(f: Entity): (t: Facets.FacetType)
    ensures t == Facets.ENTITY
  {
    Facets.ENTITY
  }
}
