/**
 * The CMIS 1.0 schema vocabulary the type registry works with: property
 * definitions, type definitions and the errors the registry raises.
 * Display strings are kept; the serialisation classes behind them are not.
 */
module CmisModel {
  import opened Wrappers

  datatype PropertyType = Boolean | DateTime | Decimal | Html | Id | Integer | String | Uri

  datatype Cardinality = Single | Multi

  datatype Updatability = ReadOnly | ReadWrite | WhenCheckedOut | OnCreate

  /** The four base types of CMIS 1.0. */
  datatype BaseTypeId = CmisDocument | CmisFolder | CmisRelationship | CmisPolicy

  datatype ContentStreamAllowed = NotAllowed | Allowed | Required

  datatype PropertyDefinition = PropertyDefinition(
    id: string,
    localName: string,
    localNamespace: Option<string>,
    displayName: string,
    description: string,
    propertyType: PropertyType,
    cardinality: Cardinality,
    updatability: Updatability,
    queryName: string,
    isInherited: bool,
    isRequired: bool,
    isQueryable: bool,
    isOrderable: Option<bool>)

  /**
   * The implementation class of a type definition. Only a document type
   * definition carries the versioning flag and the content-stream rule;
   * `OtherShape` stands for relationship, policy and foreign classes.
   */
  datatype TypeShape =
    | DocumentShape(isVersionable: bool, contentStreamAllowed: ContentStreamAllowed)
    | FolderShape
    | OtherShape

  /** A type definition; `properties` maps a property id to its definition. */
  datatype TypeDefinition = TypeDefinition(
    id: string,
    localName: string,
    localNamespace: Option<string>,
    queryName: string,
    displayName: string,
    description: string,
    baseTypeId: Option<BaseTypeId>,
    parentTypeId: Option<string>,
    isCreatable: bool,
    isFileable: bool,
    isQueryable: bool,
    isFulltextIndexed: bool,
    isIncludedInSupertypeQuery: bool,
    isControllableAcl: bool,
    isControllablePolicy: bool,
    shape: TypeShape,
    properties: map<string, PropertyDefinition>)

  /** The exceptions the registry lets escape, with their messages. */
  datatype CmisError =
    | InvalidArgument(message: string)
    | ObjectNotFound(message: string)
    | NullPointer
    | IllegalArgument(message: string)

  /**
   * Builds one property definition. Whatever the datatype, the local name
   * and the query name are the id, the property is not queryable and its
   * orderability is left unset.
   */
  function CreatePropDef(id: string, displayName: string, description: string,
                         propertyType: PropertyType, cardinality: Cardinality,
                         updatability: Updatability, inherited: bool, required: bool)
    : (p: PropertyDefinition)
    ensures p.id == id && p.localName == id && p.queryName == id
    ensures p.displayName == displayName && p.description == description
    ensures p.propertyType == propertyType && p.cardinality == cardinality && p.updatability == updatability
    ensures p.isInherited == inherited && p.isRequired == required
    ensures !p.isQueryable && p.isOrderable.None? && p.localNamespace.None?
  {
    PropertyDefinition(id, id, None, displayName, description, propertyType, cardinality,
                       updatability, id, inherited, required, false, None)
  }

  /** True only for a document type definition whose versionable flag is set. */
  predicate IsVersionable(t: TypeDefinition) {
    match t.shape
    case DocumentShape(versionable, _) => versionable
    case _ => false
  }

  /**
   * Only a document type definition can be versionable, and for one the
   * answer is its own versionable flag; folders and other shapes never are.
   */
  lemma VersionableOnlyDocuments(t: TypeDefinition)
    ensures IsVersionable(t) ==> t.shape.DocumentShape?
    ensures t.shape.DocumentShape? ==> (IsVersionable(t) <==> t.shape.isVersionable)
    ensures t.shape.FolderShape? || t.shape.OtherShape? ==> !IsVersionable(t)
  {
  }

  /** The definition as a query hands it out: without property definitions unless asked for. */
  function Shown(t: TypeDefinition, includePropertyDefinitions: bool): TypeDefinition {
    if includePropertyDefinitions then t else t.(properties := map[])
  }
}
