// The facets a specification holds, as the rule mapper builds them: one
// constructor per facet class, carrying the constructor arguments the mapper
// passes. The orchestration treats a facet as an opaque value handed to the
// facet functions it is given; only `Entity` is told apart by its class.

module FacetDecls {
  import opened Wrappers

  /** The value argument the mapper builds: a `SimpleValue` over the raw text, or a
      `RestrictionValue` over the enumeration and pattern values. */
  datatype MappedValue =
    | SimpleArg(text: string)
    | RestrictionArg(enums: seq<Option<string>>, patterns: seq<Option<string>>)

  datatype FacetDecl =
    | EntityDecl(name: Option<string>, predefinedType: Option<string>, instructions: Option<string>)
    | PartOfDecl(entityName: Option<string>, entityType: Option<string>, relation: Option<string>,
                 cardinality: Option<string>, instructions: Option<string>)
    | ClassificationDecl(system: Option<string>, value: Option<MappedValue>, uri: Option<string>,
                         card: string, instructions: Option<string>)
    | AttributeDecl(attrName: Option<string>, value: Option<MappedValue>, card: string,
                    instructions: Option<string>)
    | PropertyDecl(propertySet: Option<string>, baseName: Option<string>, value: Option<MappedValue>,
                   dataType: Option<string>, uri: Option<string>, card: string, instructions: Option<string>)
    | MaterialDecl(value: Option<MappedValue>, uri: Option<string>, card: string,
                   instructions: Option<string>)
}
