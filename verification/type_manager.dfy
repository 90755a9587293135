/**
 * The type registry of the JCR-backed CMIS server: a map from type id to a
 * container node holding the type definition and the ids of its child
 * nodes in registration order. Type definitions are immutable values here,
 * so the copy the server makes of every definition crossing the registry
 * boundary is the identity, and the isolation it buys holds by construction.
 */
module TypeManager {
  import opened Wrappers
  import opened CmisModel
  import opened PropertySets

  const DOCUMENT_TYPE_ID := "cmis:document"
  const DOCUMENT_UNVERSIONED_TYPE_ID := "cmis:unversioned-document"
  const FOLDER_TYPE_ID := "cmis:folder"
  const RELATIONSHIP_TYPE_ID := "cmis:relationship"
  const POLICY_TYPE_ID := "cmis:policy"
  const NAMESPACE := "http://opencmis.org/jcr"

  /**
   * A container node. `rank` is the node's registration index: a child is
   * always registered after its parent, and the rank records that order so
   * that walks down the tree visibly terminate.
   */
  datatype TypeNode = TypeNode(definition: TypeDefinition, children: seq<string>, rank: nat)

  datatype Registry = Registry(types: map<string, TypeNode>, nextRank: nat)

  /** `child` is a registered node linked under `parent`, registered after it. */
  ghost predicate Linked(reg: Registry, parent: string, child: string)
    requires parent in reg.types
  {
    && child in reg.types
    && reg.types[child].definition.parentTypeId == Some(parent)
    && reg.types[parent].rank < reg.types[child].rank
  }

  /**
   * The registry invariant: the folder and document roots are present,
   * every node is indexed under its own id, and every child link points at
   * a registered node that names its parent and was registered later.
   */
  ghost predicate Valid(reg: Registry) {
    && FOLDER_TYPE_ID in reg.types
    && DOCUMENT_TYPE_ID in reg.types
    && (forall id :: id in reg.types ==>
          reg.types[id].definition.id == id && reg.types[id].rank < reg.nextRank)
    && (forall id, i :: id in reg.types && 0 <= i < |reg.types[id].children| ==>
          Linked(reg, id, reg.types[id].children[i]))
  }

  function BaseTypeKey(b: BaseTypeId): string {
    match b
    case CmisDocument => DOCUMENT_TYPE_ID
    case CmisFolder => FOLDER_TYPE_ID
    case CmisRelationship => RELATIONSHIP_TYPE_ID
    case CmisPolicy => POLICY_TYPE_ID
  }

  //------------------------------------------< seeding >---

  function FolderType(): TypeDefinition {
    TypeDefinition(
      id := FOLDER_TYPE_ID, localName := "Folder", localNamespace := Some(NAMESPACE),
      queryName := "cmis:folder", displayName := "Folder", description := "Folder",
      baseTypeId := Some(CmisFolder), parentTypeId := None,
      isCreatable := true, isFileable := true, isQueryable := false, isFulltextIndexed := false,
      isIncludedInSupertypeQuery := true, isControllableAcl := false, isControllablePolicy := false,
      shape := FolderShape, properties := FolderProperties())
  }

  function DocumentType(): TypeDefinition {
    TypeDefinition(
      id := DOCUMENT_TYPE_ID, localName := "Document", localNamespace := Some(NAMESPACE),
      queryName := "cmis:document", displayName := "Document", description := "Document",
      baseTypeId := Some(CmisDocument), parentTypeId := None,
      isCreatable := true, isFileable := true, isQueryable := false, isFulltextIndexed := false,
      isIncludedInSupertypeQuery := true, isControllableAcl := false, isControllablePolicy := false,
      shape := DocumentShape(true, Allowed), properties := DocumentProperties())
  }

  /** The document type re-labelled, linked under it and not versionable. */
  function UnversionedDocumentType(): TypeDefinition {
    DocumentType().(
      id := DOCUMENT_UNVERSIONED_TYPE_ID, localName := "Unversioned document",
      queryName := "cmis:unversioned-document", displayName := "Unversioned document",
      description := "Unversioned document", parentTypeId := Some(DOCUMENT_TYPE_ID),
      shape := DocumentShape(false, Allowed),
      properties := DocumentPropertyDefinitions(BasePropertyDefinitions(DocumentType().properties)))
  }

  function Empty(): Registry {
    Registry(map[], 0)
  }

  /** The registry as the constructor leaves it. */
  function Seeded(): Registry {
    AddTypeInternal(AddTypeInternal(AddTypeInternal(Empty(), FolderType()), DocumentType()),
                    UnversionedDocumentType())
  }

  //------------------------------------------< registration >---

  /**
   * Indexes a definition under its id unless that id is taken, and appends
   * it to its parent's children when the parent is registered. An existing
   * id leaves the registry as it was; otherwise exactly one key is added,
   * every other node keeps its definition and rank, and only the parent's
   * children list changes, by one id at its end.
   */
  function AddTypeInternal(reg: Registry, t: TypeDefinition): (r: Registry)
    ensures t.id in reg.types ==> r == reg
    ensures t.id !in reg.types ==>
              && r.types.Keys == reg.types.Keys + {t.id}
              && r.types[t.id] == TypeNode(t, [], reg.nextRank)
              && r.nextRank == reg.nextRank + 1
              && forall id :: id in reg.types ==>
                   && r.types[id].definition == reg.types[id].definition
                   && r.types[id].rank == reg.types[id].rank
                   && r.types[id].children ==
                        if t.parentTypeId == Some(id) then reg.types[id].children + [t.id]
                        else reg.types[id].children
  {
    if t.id in reg.types then reg
    else
      var linked :=
        if t.parentTypeId.Some? && t.parentTypeId.value in reg.types then
          var p := t.parentTypeId.value;
          reg.types[p := reg.types[p].(children := reg.types[p].children + [t.id])]
        else reg.types;
      Registry(linked[t.id := TypeNode(t, [], reg.nextRank)], reg.nextRank + 1)
  }

  /**
   * The new type with every property of its base type injected, marked
   * inherited; a base property replaces an own property with the same id.
   */
  function Inherit(t: TypeDefinition, base: TypeDefinition): (r: TypeDefinition)
    ensures r.(properties := t.properties) == t
    ensures r.properties.Keys == t.properties.Keys + base.properties.Keys
    ensures forall k :: k in base.properties ==>
              r.properties[k] == base.properties[k].(isInherited := true)
    ensures forall k :: k in t.properties && k !in base.properties ==>
              r.properties[k] == t.properties[k]
  {
    var inherited := map k | k in base.properties :: base.properties[k].(isInherited := true);
    var merged := t.properties + inherited;
    assert merged.Keys == t.properties.Keys + base.properties.Keys;
    t.(properties := merged)
  }

  /**
   * Registers a user type. A missing type or base type id is refused with
   * `false` and no change. The base type is looked up by its well-known id;
   * when nothing is registered there (relationship and policy are never
   * seeded) the lookup dereferences null. Otherwise the inheriting copy is
   * handed to the internal insert and the answer is `true`, also when the
   * id was already taken and nothing was inserted.
   */
  function AddType(reg: Registry, t: Option<TypeDefinition>): (r: Result<(Registry, bool), CmisError>)
    ensures (t.None? || t.value.baseTypeId.None?) ==> r == Success((reg, false))
    ensures t.Some? && t.value.baseTypeId.Some? ==>
              var key := BaseTypeKey(t.value.baseTypeId.value);
              && (r.Failure? <==> key !in reg.types)
              && (r.Failure? ==> r.error == NullPointer)
              && (r.Success? ==>
                    r.value == (AddTypeInternal(reg, Inherit(t.value, reg.types[key].definition)), true))
  {
    if t.None? || t.value.baseTypeId.None? then Success((reg, false))
    else
      var key := BaseTypeKey(t.value.baseTypeId.value);
      if key !in reg.types then Failure(NullPointer)
      else Success((AddTypeInternal(reg, Inherit(t.value, reg.types[key].definition)), true))
  }

  //------------------------------------------< reads >---

  /** The stored definition for an id, for trusted internal callers. */
  function GetType(reg: Registry, typeId: string): (r: Option<TypeDefinition>)
    requires Valid(reg)
    ensures r.Some? <==> typeId in reg.types
    ensures r.Some? ==> r.value.id == typeId
  {
    if typeId in reg.types then Some(reg.types[typeId].definition) else None
  }

  function UnknownTypeMessage(typeId: Option<string>): string {
    "Type '" + (if typeId.Some? then typeId.value else "null") + "' is unknown!"
  }

  /** A copy of a registered definition, or object-not-found naming the id. */
  function GetTypeDefinition(reg: Registry, typeId: Option<string>): (r: Result<TypeDefinition, CmisError>)
    requires Valid(reg)
    ensures r.Success? <==> typeId.Some? && typeId.value in reg.types
    ensures r.Success? ==> r.value.id == typeId.value && Some(r.value) == GetType(reg, typeId.value)
    ensures r.Failure? ==> r.error == ObjectNotFound(UnknownTypeMessage(typeId))
  {
    if typeId.Some? && typeId.value in reg.types then Success(reg.types[typeId.value].definition)
    else Failure(ObjectNotFound(UnknownTypeMessage(typeId)))
  }

  //------------------------------------------< properties >---

  /** The internal insert keeps the registry invariant. */
  lemma AddTypeInternalKeepsValid(reg: Registry, t: TypeDefinition)
    requires Valid(reg)
    ensures Valid(AddTypeInternal(reg, t))
  {
    var r := AddTypeInternal(reg, t);
    if t.id !in reg.types {
      forall id, i | id in r.types && 0 <= i < |r.types[id].children|
        ensures Linked(r, id, r.types[id].children[i])
      {
        if id != t.id {
          var cs := reg.types[id].children;
          if i < |cs| {
            assert r.types[id].children[i] == cs[i];
            assert Linked(reg, id, cs[i]);
          }
        }
      }
    }
  }

  /**
   * Three inserts of a folder root, a document root and a document child
   * give a valid registry of exactly those three ids, the child the only
   * child of the document root.
   */
  lemma {:induction false} SeedingShape(f: TypeDefinition, d: TypeDefinition, u: TypeDefinition)
    requires f.id == FOLDER_TYPE_ID && f.parentTypeId.None?
    requires d.id == DOCUMENT_TYPE_ID && d.parentTypeId.None?
    requires u.id == DOCUMENT_UNVERSIONED_TYPE_ID && u.parentTypeId == Some(DOCUMENT_TYPE_ID)
    ensures var s := AddTypeInternal(AddTypeInternal(AddTypeInternal(Empty(), f), d), u);
            && Valid(s)
            && s.types.Keys == {FOLDER_TYPE_ID, DOCUMENT_TYPE_ID, DOCUMENT_UNVERSIONED_TYPE_ID}
            && s.types[FOLDER_TYPE_ID] == TypeNode(f, [], 0)
            && s.types[DOCUMENT_TYPE_ID] == TypeNode(d, [DOCUMENT_UNVERSIONED_TYPE_ID], 1)
            && s.types[DOCUMENT_UNVERSIONED_TYPE_ID] == TypeNode(u, [], 2)
  {
    var r1 := AddTypeInternal(Empty(), f);
    var r2 := AddTypeInternal(r1, d);
    var s := AddTypeInternal(r2, u);
    assert r1.types.Keys == {FOLDER_TYPE_ID};
    assert r2.types.Keys == {FOLDER_TYPE_ID, DOCUMENT_TYPE_ID};
    assert Valid(r2);
    AddTypeInternalKeepsValid(r2, u);
  }

  /**
   * After construction the registry is valid and holds exactly the folder,
   * document and unversioned-document types, the unversioned document being
   * the only child of the document type.
   */
  lemma SeededRegistry()
    ensures Valid(Seeded())
    ensures Seeded().types.Keys == {FOLDER_TYPE_ID, DOCUMENT_TYPE_ID, DOCUMENT_UNVERSIONED_TYPE_ID}
    ensures Seeded().types[FOLDER_TYPE_ID] == TypeNode(FolderType(), [], 0)
    ensures Seeded().types[DOCUMENT_TYPE_ID] == TypeNode(DocumentType(), [DOCUMENT_UNVERSIONED_TYPE_ID], 1)
    ensures Seeded().types[DOCUMENT_UNVERSIONED_TYPE_ID] == TypeNode(UnversionedDocumentType(), [], 2)
  {
    var f, d, u := FolderType(), DocumentType(), UnversionedDocumentType();
    SeedingShape(f, d, u);
  }

  /** In a registry of the three seeded ids, versionability follows the stored shapes. */
  lemma VersionabilityOfThree(s: Registry)
    requires s.types.Keys == {FOLDER_TYPE_ID, DOCUMENT_TYPE_ID, DOCUMENT_UNVERSIONED_TYPE_ID}
    requires IsVersionable(s.types[DOCUMENT_TYPE_ID].definition)
    requires !IsVersionable(s.types[FOLDER_TYPE_ID].definition)
    requires !IsVersionable(s.types[DOCUMENT_UNVERSIONED_TYPE_ID].definition)
    ensures forall id :: id in s.types ==> (IsVersionable(s.types[id].definition) <==> id == DOCUMENT_TYPE_ID)
  {
    assert DOCUMENT_TYPE_ID != FOLDER_TYPE_ID && DOCUMENT_TYPE_ID != DOCUMENT_UNVERSIONED_TYPE_ID by {
      assert DOCUMENT_TYPE_ID[5] != FOLDER_TYPE_ID[5];
      assert |DOCUMENT_TYPE_ID| != |DOCUMENT_UNVERSIONED_TYPE_ID|;
    }
  }

  /** Of the seeded types, the document type is the only versionable one. */
  lemma SeededVersionability()
    ensures forall id :: id in Seeded().types ==>
              (IsVersionable(Seeded().types[id].definition) <==> id == DOCUMENT_TYPE_ID)
  {
    SeededRegistry();
    VersionabilityOfThree(Seeded());
  }

  /** A successful registration keeps the registry invariant. */
  lemma AddTypeKeepsValid(reg: Registry, t: Option<TypeDefinition>)
    requires Valid(reg)
    requires AddType(reg, t).Success?
    ensures Valid(AddType(reg, t).value.0)
  {
    if t.Some? && t.value.baseTypeId.Some? {
      var key := BaseTypeKey(t.value.baseTypeId.value);
      AddTypeInternalKeepsValid(reg, Inherit(t.value, reg.types[key].definition));
    }
  }

  /** Registration never replaces a stored definition, the seeded roots included. */
  lemma AddTypeKeepsDefinitions(reg: Registry, t: Option<TypeDefinition>, id: string)
    requires AddType(reg, t).Success?
    requires id in reg.types
    ensures id in AddType(reg, t).value.0.types
    ensures AddType(reg, t).value.0.types[id].definition == reg.types[id].definition
  {
  }

  /**
   * A type whose id is already registered changes nothing, yet `addType`
   * reports `true`.
   */
  lemma AddTypeDuplicateReportsTrue(reg: Registry, t: TypeDefinition)
    requires t.baseTypeId.Some? && BaseTypeKey(t.baseTypeId.value) in reg.types
    requires t.id in reg.types
    ensures AddType(reg, Some(t)) == Success((reg, true))
  {
  }

  /**
   * A new id is indexed; the node is appended at the end of its parent's
   * children when the parent is registered and is left detached otherwise.
   */
  lemma AddTypeLinksNewType(reg: Registry, t: TypeDefinition)
    requires Valid(reg)
    requires t.baseTypeId.Some? && BaseTypeKey(t.baseTypeId.value) in reg.types
    requires t.id !in reg.types
    ensures var r := AddType(reg, Some(t)).value.0;
            && r.types.Keys == reg.types.Keys + {t.id}
            && r.types[t.id].definition.id == t.id
            && r.types[t.id].children == []
            && (forall p :: p in reg.types ==>
                  (t.id in r.types[p].children <==> t.parentTypeId == Some(p)))
            && (t.parentTypeId.Some? && t.parentTypeId.value in reg.types ==>
                  var p := t.parentTypeId.value;
                  r.types[p].children == reg.types[p].children + [t.id])
  {
    var r := AddType(reg, Some(t)).value.0;
    forall p | p in reg.types
      ensures t.id in r.types[p].children <==> t.parentTypeId == Some(p)
    {
    }
  }

  /**
   * A subtype of a base whose well-known id is not registered cannot be
   * added: the base lookup dereferences null.
   */
  lemma AddTypeUnregisteredBaseFails(reg: Registry, t: TypeDefinition)
    requires RELATIONSHIP_TYPE_ID !in reg.types && POLICY_TYPE_ID !in reg.types
    requires t.baseTypeId == Some(CmisRelationship) || t.baseTypeId == Some(CmisPolicy)
    ensures AddType(reg, Some(t)) == Failure(NullPointer)
  {
  }

  /** The constructor seeds neither the relationship nor the policy base. */
  lemma SeededLacksRelationshipAndPolicy()
    ensures RELATIONSHIP_TYPE_ID !in Seeded().types && POLICY_TYPE_ID !in Seeded().types
  {
    SeededKeys();
    NoRelationshipOrPolicy(Seeded());
  }

  lemma SeededKeys()
    ensures Seeded().types.Keys == {FOLDER_TYPE_ID, DOCUMENT_TYPE_ID, DOCUMENT_UNVERSIONED_TYPE_ID}
  {
    SeedingShape(FolderType(), DocumentType(), UnversionedDocumentType());
  }

  lemma NoRelationshipOrPolicy(reg: Registry)
    requires reg.types.Keys == {FOLDER_TYPE_ID, DOCUMENT_TYPE_ID, DOCUMENT_UNVERSIONED_TYPE_ID}
    ensures RELATIONSHIP_TYPE_ID !in reg.types && POLICY_TYPE_ID !in reg.types
  {
    assert POLICY_TYPE_ID[5] != FOLDER_TYPE_ID[5];
  }

  /**
   * A document subtype registered while the document type is the seeded one
   * carries every base and document property id, each marked inherited,
   * while its own properties with other ids keep their definitions.
   */
  lemma AddDocumentSubtypeInherits(reg: Registry, t: TypeDefinition)
    requires DOCUMENT_TYPE_ID in reg.types && reg.types[DOCUMENT_TYPE_ID].definition == DocumentType()
    requires t.baseTypeId == Some(CmisDocument)
    requires t.id !in reg.types
    ensures var stored := AddType(reg, Some(t)).value.0.types[t.id].definition;
            && (forall k :: k in SpecIds(BaseSpecs) + SpecIds(DocumentSpecs) ==>
                  k in stored.properties && stored.properties[k].isInherited)
            && (forall k :: k in t.properties && k !in SpecIds(BaseSpecs) + SpecIds(DocumentSpecs) ==>
                  k in stored.properties && stored.properties[k] == t.properties[k])
  {
    DocumentPropertyMap();
  }

  //------------------------------------------< corrected registration >---

  /**
   * Registration as its documentation promises it: `true` iff the type was
   * added. Identical to `AddType` except that a taken id answers `false`.
   */
  function AddTypeReportingDuplicates(reg: Registry, t: Option<TypeDefinition>)
    : (r: Result<(Registry, bool), CmisError>)
    ensures r.Success? <==> AddType(reg, t).Success?
    ensures r.Success? ==> r.value.0 == AddType(reg, t).value.0
    ensures r.Success? ==> (r.value.1 <==> r.value.0.types.Keys != reg.types.Keys)
  {
    match AddType(reg, t)
    case Failure(e) => Failure(e)
    case Success((next, added)) =>
      Success((next, added && t.Some? && t.value.id !in reg.types))
  }
}
