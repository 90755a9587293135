/**
 * The CMIS-mandated property definitions the registry seeds its base
 * types with: the base set every type carries, the folder set and the
 * document set. Each builder adds its definitions, in source order, to a
 * type's property map; a later definition with the same id replaces an
 * earlier one, as a map `put` does.
 */
module PropertySets {
  import opened Wrappers
  import opened CmisModel

  const BASE_TYPE_ID := "cmis:baseTypeId"
  const OBJECT_ID := "cmis:objectId"
  const OBJECT_TYPE_ID := "cmis:objectTypeId"
  const NAME := "cmis:name"
  const CREATED_BY := "cmis:createdBy"
  const CREATION_DATE := "cmis:creationDate"
  const LAST_MODIFIED_BY := "cmis:lastModifiedBy"
  const LAST_MODIFICATION_DATE := "cmis:lastModificationDate"
  const CHANGE_TOKEN := "cmis:changeToken"
  const PARENT_ID := "cmis:parentId"
  const ALLOWED_CHILD_OBJECT_TYPE_IDS := "cmis:allowedChildObjectTypeIds"
  const PATH := "cmis:path"
  const IS_IMMUTABLE := "cmis:isImmutable"
  const IS_LATEST_VERSION := "cmis:isLatestVersion"
  const IS_MAJOR_VERSION := "cmis:isMajorVersion"
  const IS_LATEST_MAJOR_VERSION := "cmis:isLatestMajorVersion"
  const VERSION_LABEL := "cmis:versionLabel"
  const VERSION_SERIES_ID := "cmis:versionSeriesId"
  const IS_VERSION_SERIES_CHECKED_OUT := "cmis:isVersionSeriesCheckedOut"
  const VERSION_SERIES_CHECKED_OUT_ID := "cmis:versionSeriesCheckedOutId"
  const VERSION_SERIES_CHECKED_OUT_BY := "cmis:versionSeriesCheckedOutBy"
  const CHECKIN_COMMENT := "cmis:checkinComment"
  const CONTENT_STREAM_LENGTH := "cmis:contentStreamLength"
  const CONTENT_STREAM_MIME_TYPE := "cmis:contentStreamMimeType"
  const CONTENT_STREAM_FILE_NAME := "cmis:contentStreamFileName"
  const CONTENT_STREAM_ID := "cmis:contentStreamId"

  /**
   * One call of the property factory as the builders make it. The builders
   * always pass the same text as display name and description, and never
   * mark a seeded property inherited.
   */
  datatype PropertySpec = PropertySpec(
    id: string, title: string, propertyType: PropertyType, cardinality: Cardinality,
    updatability: Updatability, required: bool)
  {
    function Definition(): PropertyDefinition {
      CreatePropDef(id, title, title, propertyType, cardinality, updatability, false, required)
    }
  }

  const BaseSpecs: seq<PropertySpec> := [
    PropertySpec(BASE_TYPE_ID, "Base Type Id", Id, Single, ReadOnly, true),
    PropertySpec(OBJECT_ID, "Object Id", Id, Single, ReadOnly, true),
    PropertySpec(OBJECT_TYPE_ID, "Type Id", Id, Single, OnCreate, true),
    PropertySpec(NAME, "Name", String, Single, ReadWrite, true),
    PropertySpec(CREATED_BY, "Created By", String, Single, ReadOnly, true),
    PropertySpec(CREATION_DATE, "Creation Date", DateTime, Single, ReadOnly, true),
    PropertySpec(LAST_MODIFIED_BY, "Last Modified By", String, Single, ReadOnly, true),
    PropertySpec(LAST_MODIFICATION_DATE, "Last Modification Date", DateTime, Single, ReadOnly, true),
    PropertySpec(CHANGE_TOKEN, "Change Token", String, Single, ReadOnly, false)
  ]

  const FolderSpecs: seq<PropertySpec> := [
    PropertySpec(PARENT_ID, "Parent Id", Id, Single, ReadOnly, false),
    PropertySpec(ALLOWED_CHILD_OBJECT_TYPE_IDS, "Allowed Child Object Type Ids", Id, Multi, ReadOnly, false),
    PropertySpec(PATH, "Path", String, Single, ReadOnly, false)
  ]

  const DocumentSpecs: seq<PropertySpec> := [
    PropertySpec(IS_IMMUTABLE, "Is Immutable", Boolean, Single, ReadOnly, false),
    PropertySpec(IS_LATEST_VERSION, "Is Latest Version", Boolean, Single, ReadOnly, false),
    PropertySpec(IS_MAJOR_VERSION, "Is Major Version", Boolean, Single, ReadOnly, false),
    PropertySpec(IS_LATEST_MAJOR_VERSION, "Is Latest Major Version", Boolean, Single, ReadOnly, false),
    PropertySpec(VERSION_LABEL, "Version Label", String, Single, ReadOnly, false),
    PropertySpec(VERSION_SERIES_ID, "Version Series Id", Id, Single, ReadOnly, true),
    PropertySpec(IS_VERSION_SERIES_CHECKED_OUT, "Is Version Series Checked Out", Boolean, Single, ReadOnly, true),
    PropertySpec(VERSION_SERIES_CHECKED_OUT_ID, "Version Series Checked Out Id", Id, Single, ReadOnly, false),
    // the server declares it with datatype id, where CMIS 1.0 says string
    PropertySpec(VERSION_SERIES_CHECKED_OUT_BY, "Version Series Checked Out By", Id, Single, ReadOnly, false),
    PropertySpec(CHECKIN_COMMENT, "Checkin Comment", String, Single, ReadOnly, false),
    PropertySpec(CONTENT_STREAM_LENGTH, "Content Stream Length", Integer, Single, ReadOnly, false),
    PropertySpec(CONTENT_STREAM_MIME_TYPE, "MIME Type", String, Single, ReadOnly, false),
    PropertySpec(CONTENT_STREAM_FILE_NAME, "Filename", String, Single, ReadOnly, false),
    PropertySpec(CONTENT_STREAM_ID, "Content Stream Id", Id, Single, ReadOnly, false)
  ]

  function SpecIds(specs: seq<PropertySpec>): set<string> {
    set i | 0 <= i < |specs| :: specs[i].id
  }

  predicate DistinctIds(specs: seq<PropertySpec>) {
    forall i, j :: 0 <= i < j < |specs| ==> specs[i].id != specs[j].id
  }

  /**
   * Adds the definitions of `specs`, in order, to a property map keyed by
   * property id. The result holds exactly the old ids and the new ones; an
   * old entry survives only when no spec redefines it; and when the specs'
   * ids are distinct, each spec's id maps to that spec's definition.
   */
  function AddPropertyDefinitions(props: map<string, PropertyDefinition>, specs: seq<PropertySpec>)
    : (r: map<string, PropertyDefinition>)
    ensures r.Keys == props.Keys + SpecIds(specs)
    ensures forall k :: k in props && k !in SpecIds(specs) ==> r[k] == props[k]
    ensures DistinctIds(specs) ==>
              forall i :: 0 <= i < |specs| ==> r[specs[i].id] == specs[i].Definition()
    decreases |specs|
  {
    if |specs| == 0 then props
    else
      var rest := AddPropertyDefinitions(props[specs[0].id := specs[0].Definition()], specs[1..]);
      assert SpecIds(specs) == {specs[0].id} + SpecIds(specs[1..]) by {
        forall k | k in SpecIds(specs) ensures k in {specs[0].id} + SpecIds(specs[1..]) {
          var i :| 0 <= i < |specs| && specs[i].id == k;
          if i > 0 { assert specs[1..][i - 1].id == k; }
        }
      }
      assert DistinctIds(specs) ==> specs[0].id !in SpecIds(specs[1..]);
      rest
  }

  function BasePropertyDefinitions(props: map<string, PropertyDefinition>): map<string, PropertyDefinition> {
    AddPropertyDefinitions(props, BaseSpecs)
  }

  function FolderPropertyDefinitions(props: map<string, PropertyDefinition>): map<string, PropertyDefinition> {
    AddPropertyDefinitions(props, FolderSpecs)
  }

  function DocumentPropertyDefinitions(props: map<string, PropertyDefinition>): map<string, PropertyDefinition> {
    AddPropertyDefinitions(props, DocumentSpecs)
  }

  /** The property map of a seeded folder type. */
  function FolderProperties(): map<string, PropertyDefinition> {
    FolderPropertyDefinitions(BasePropertyDefinitions(map[]))
  }

  /** The property map of a seeded document type. */
  function DocumentProperties(): map<string, PropertyDefinition> {
    DocumentPropertyDefinitions(BasePropertyDefinitions(map[]))
  }

  lemma BaseSpecsDistinct()
    ensures DistinctIds(BaseSpecs)
  {
  }

  lemma FolderSpecsDistinct()
    ensures DistinctIds(FolderSpecs)
  {
  }

  lemma DocumentSpecsDistinct()
    ensures DistinctIds(DocumentSpecs)
  {
    forall i, j | 0 <= i < j < |DocumentSpecs|
      ensures DocumentSpecs[i].id != DocumentSpecs[j].id
    {
      assert |DocumentSpecs[i].id| != |DocumentSpecs[j].id| || DocumentSpecs[i].id[7..] != DocumentSpecs[j].id[7..];
    }
  }

  lemma BaseFolderDisjoint()
    ensures SpecIds(BaseSpecs) !! SpecIds(FolderSpecs)
  {
  }

  lemma BaseDocumentDisjoint()
    ensures SpecIds(BaseSpecs) !! SpecIds(DocumentSpecs)
  {
  }

  /**
   * Building a map from two spec lists with distinct, disjoint ids gives
   * exactly their ids, each bound to its own spec's definition, none of them
   * inherited.
   */
  lemma {:induction false} BuiltFrom(a: seq<PropertySpec>, b: seq<PropertySpec>)
    requires DistinctIds(a) && DistinctIds(b) && SpecIds(a) !! SpecIds(b)
    ensures var r := AddPropertyDefinitions(AddPropertyDefinitions(map[], a), b);
            && r.Keys == SpecIds(a) + SpecIds(b)
            && (forall i :: 0 <= i < |a| ==> r[a[i].id] == a[i].Definition())
            && (forall i :: 0 <= i < |b| ==> r[b[i].id] == b[i].Definition())
            && (forall k :: k in r ==> r[k].id == k && !r[k].isInherited)
  {
    var m := AddPropertyDefinitions(map[], a);
    var r := AddPropertyDefinitions(m, b);
    forall i | 0 <= i < |a| ensures r[a[i].id] == a[i].Definition() {
      assert a[i].id in SpecIds(a);
    }
    forall k | k in r ensures r[k].id == k && !r[k].isInherited {
      if k in SpecIds(b) {
        var i :| 0 <= i < |b| && b[i].id == k;
        assert r[k] == b[i].Definition();
      } else {
        var i :| 0 <= i < |a| && a[i].id == k;
        assert r[k] == a[i].Definition();
      }
    }
  }

  /** Each folder or base spec is entered, under its id, into the seeded folder map. */
  lemma FolderEntry(specs: seq<PropertySpec>, i: nat)
    requires specs == BaseSpecs || specs == FolderSpecs
    requires i < |specs|
    ensures specs[i].id in FolderProperties()
    ensures FolderProperties()[specs[i].id] == specs[i].Definition()
  {
    BaseSpecsDistinct();
    FolderSpecsDistinct();
    BaseFolderDisjoint();
    BuiltFrom(BaseSpecs, FolderSpecs);
  }

  /** Each document or base spec is entered, under its id, into the seeded document map. */
  lemma DocumentEntry(specs: seq<PropertySpec>, i: nat)
    requires specs == BaseSpecs || specs == DocumentSpecs
    requires i < |specs|
    ensures specs[i].id in DocumentProperties()
    ensures DocumentProperties()[specs[i].id] == specs[i].Definition()
  {
    BaseSpecsDistinct();
    DocumentSpecsDistinct();
    BaseDocumentDisjoint();
    BuiltFrom(BaseSpecs, DocumentSpecs);
  }

  lemma FolderKeys()
    ensures FolderProperties().Keys == SpecIds(BaseSpecs) + SpecIds(FolderSpecs)
    ensures forall k :: k in FolderProperties() ==>
              FolderProperties()[k].id == k && !FolderProperties()[k].isInherited
  {
    BaseSpecsDistinct();
    FolderSpecsDistinct();
    BaseFolderDisjoint();
    BuiltFrom(BaseSpecs, FolderSpecs);
  }

  lemma DocumentKeys()
    ensures DocumentProperties().Keys == SpecIds(BaseSpecs) + SpecIds(DocumentSpecs)
    ensures forall k :: k in DocumentProperties() ==>
              DocumentProperties()[k].id == k && !DocumentProperties()[k].isInherited
  {
    BaseSpecsDistinct();
    DocumentSpecsDistinct();
    BaseDocumentDisjoint();
    BuiltFrom(BaseSpecs, DocumentSpecs);
  }

  lemma FolderFields()
    ensures ALLOWED_CHILD_OBJECT_TYPE_IDS in FolderProperties()
              && FolderProperties()[ALLOWED_CHILD_OBJECT_TYPE_IDS].cardinality == Multi
    ensures CHANGE_TOKEN in FolderProperties() && !FolderProperties()[CHANGE_TOKEN].isRequired
    ensures NAME in FolderProperties() && FolderProperties()[NAME].isRequired
              && FolderProperties()[NAME].updatability == ReadWrite
  {
    assert FolderSpecs[1].id == ALLOWED_CHILD_OBJECT_TYPE_IDS;
    assert BaseSpecs[8].id == CHANGE_TOKEN;
    assert BaseSpecs[3].id == NAME;
    FolderEntry(FolderSpecs, 1);
    FolderEntry(BaseSpecs, 8);
    FolderEntry(BaseSpecs, 3);
  }

  lemma DocumentFields()
    ensures VERSION_SERIES_ID in DocumentProperties()
              && DocumentProperties()[VERSION_SERIES_ID].isRequired
    ensures IS_VERSION_SERIES_CHECKED_OUT in DocumentProperties()
              && DocumentProperties()[IS_VERSION_SERIES_CHECKED_OUT].isRequired
    ensures VERSION_SERIES_CHECKED_OUT_BY in DocumentProperties()
              && DocumentProperties()[VERSION_SERIES_CHECKED_OUT_BY].propertyType == Id
  {
    assert DocumentSpecs[5].id == VERSION_SERIES_ID;
    assert DocumentSpecs[6].id == IS_VERSION_SERIES_CHECKED_OUT;
    assert DocumentSpecs[8].id == VERSION_SERIES_CHECKED_OUT_BY;
    DocumentEntry(DocumentSpecs, 5);
    DocumentEntry(DocumentSpecs, 6);
    DocumentEntry(DocumentSpecs, 8);
  }

  /**
   * The seeded folder property map: keyed by property id, exactly the base
   * set plus the folder set, none inherited; the allowed-child-types
   * property is multi-valued, the name is required and read-write, and the
   * change token is optional.
   */
  lemma FolderPropertyMap()
    ensures FolderProperties().Keys == SpecIds(BaseSpecs) + SpecIds(FolderSpecs)
    ensures forall k :: k in FolderProperties() ==>
              FolderProperties()[k].id == k && !FolderProperties()[k].isInherited
    ensures ALLOWED_CHILD_OBJECT_TYPE_IDS in FolderProperties()
              && FolderProperties()[ALLOWED_CHILD_OBJECT_TYPE_IDS].cardinality == Multi
    ensures CHANGE_TOKEN in FolderProperties() && !FolderProperties()[CHANGE_TOKEN].isRequired
    ensures NAME in FolderProperties() && FolderProperties()[NAME].isRequired
              && FolderProperties()[NAME].updatability == ReadWrite
  {
    FolderKeys();
    FolderFields();
  }

  /**
   * The seeded document property map: keyed by property id, exactly the
   * base set plus the document set, none inherited; the version series id
   * and checked-out flag are required, and the checked-out-by property is
   * declared with datatype id.
   */
  lemma DocumentPropertyMap()
    ensures DocumentProperties().Keys == SpecIds(BaseSpecs) + SpecIds(DocumentSpecs)
    ensures forall k :: k in DocumentProperties() ==>
              DocumentProperties()[k].id == k && !DocumentProperties()[k].isInherited
    ensures VERSION_SERIES_ID in DocumentProperties()
              && DocumentProperties()[VERSION_SERIES_ID].isRequired
    ensures IS_VERSION_SERIES_CHECKED_OUT in DocumentProperties()
              && DocumentProperties()[IS_VERSION_SERIES_CHECKED_OUT].isRequired
    ensures VERSION_SERIES_CHECKED_OUT_BY in DocumentProperties()
              && DocumentProperties()[VERSION_SERIES_CHECKED_OUT_BY].propertyType == Id
  {
    DocumentKeys();
    DocumentFields();
  }
}
