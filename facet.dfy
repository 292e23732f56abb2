/**
 * The state every facet shares: its cardinality, its pass status, and the occurrence bounds
 * (`minOccurs`, `maxOccurs`) that the cardinality implies.
 */
module Facets {
  import opened Wrappers

  datatype Cardinality = REQUIRED | OPTIONAL | PROHIBITED

  /** The six facet kinds a specification can hold. */
  datatype FacetType = ENTITY | ATTRIBUTE | CLASSIFICATION | PROPERTY | PARTOF | MATERIAL

  /**
   * The occurrence bounds `(minOccurs, maxOccurs)` of a cardinality: only a prohibited facet
   * has an upper bound, and only a required one a lower bound.
   */
  function OccursOf(c: Cardinality): (r: (string, string))
    ensures r.1 == "0" <==> c == PROHIBITED
    ensures r.1 != "0" ==> r.1 == "unbounded"
    ensures r.0 == "1" <==> c == REQUIRED
    ensures r.0 != "1" ==> r.0 == "0"
  {
    match c
    case REQUIRED => ("1", "unbounded")
    case OPTIONAL => ("0", "unbounded")
    case PROHIBITED => ("0", "0")
  }

  /** The bounds tell the cardinality back: no two cardinalities share them. */
  lemma OccursOfInjective(a: Cardinality, b: Cardinality)
    requires OccursOf(a) == OccursOf(b)
    ensures a == b
  {}

  class Facet {
    var cardinality: Cardinality
    var status: Option<bool>
    var applicabilityTemplate: Option<string>
    var requirementTemplate: Option<string>
    var prohibitedTemplate: Option<string>
    var minOccurs: string
    var maxOccurs: string

    /** A facet is born required, with no status and no templates. */
    constructor ()
      ensures cardinality == REQUIRED && status == None
      ensures applicabilityTemplate == None && requirementTemplate == None && prohibitedTemplate == None
      ensures minOccurs == "1" && maxOccurs == "unbounded"
      ensures (minOccurs, maxOccurs) == OccursOf(cardinality)
    {
      cardinality := REQUIRED;
      status := None;
      applicabilityTemplate := None;
      requirementTemplate := None;
      prohibitedTemplate := None;
      minOccurs := "1";
      maxOccurs := "unbounded";
    }

    /** The bounds agree with the cardinality. */
    predicate Consistent()
      reads this
    {
      (minOccurs, maxOccurs) == OccursOf(cardinality)
    }

    /** Stores the cardinality and the bounds it implies; status and templates are kept. */
    method SetMinMaxOccurs(c: Cardinality)
      modifies this
      ensures cardinality == c && Consistent()
      ensures maxOccurs == "0" <==> c == PROHIBITED
      ensures minOccurs == "1" <==> c == REQUIRED
      ensures status == old(status)
      ensures applicabilityTemplate == old(applicabilityTemplate)
      ensures requirementTemplate == old(requirementTemplate)
      ensures prohibitedTemplate == old(prohibitedTemplate)
    {
      cardinality := c;
      match c {
        case REQUIRED =>
          minOccurs := "1";
          maxOccurs := "unbounded";
        case OPTIONAL =>
          minOccurs := "0";
          maxOccurs := "unbounded";
        case PROHIBITED =>
          minOccurs := "0";
          maxOccurs := "0";
      }
    }
  }
}
