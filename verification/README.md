# JCR type manager and service configuration, in Dafny

This project models the type registry of the OpenCMIS JCR server and its start-up configuration.

- **Type registry.** The registry holds the CMIS object types the repository exposes. It starts with three seeded types: the folder root, the document root, and a non-versionable document subtype. Users can register more types, and a registered type inherits every property of its base type. Clients read the registry in three ways:
  - one type definition;
  - one page of a type's direct children (CMIS 1.0 getTypeChildren, section 2.2.2.3);
  - the subtree below a type cut at a depth (CMIS 1.0 getTypeDescendants, section 2.2.2.4).
- **Start-up configuration.** Parameters prefixed `jcr.` are passed on to the repository with the prefix removed. In their values, `{name}` stands for the system property `name`, and `{}` is rejected because the empty property name is an illegal argument. The `mount-path` parameter names the repository node the service exposes.

Modules:

- `Wrappers`: `Option` and `Result`.
- `CmisModel`: the CMIS enumerations, property and type definitions, `createPropDef`, `isVersionable`, and the error kinds.
- `PropertySets`: the base, folder and document property tables, and the builders that add them to a property map.
- `TypeManager`: the registry, its validity invariant, the seeded types, `addTypeInternal`, `addType`, `getType` and `getTypeDefinition`.
- `TypeChildren`: `getTypeChildren`.
- `TypeDescendants`: both `getTypesDescendants` methods, and a depth-cut reference tree.
- `ServiceConfiguration`: `replaceSystemProperties` and `readConfiguration`.

How Java concepts map to the model:

- The Java registry is a hash map from type id to container. Each container holds a definition and a list of child containers.
- Here the registry is a map from id to a node: the definition, the ids of the children in registration order, and the registration index (`rank`).
- The invariant `Valid` says:
  - the folder and document roots are present;
  - each node is stored under its own id;
  - every child names its parent and was registered after it.

  The constructor and every registration keep `Valid`. It is also what makes the descendants walk terminate.
- Java's copy (`copyTypeDefintion`, a round trip through the binding converter) returns a fresh object that is equal to its input. Values here are immutable, so the model treats the copy as the identity.
- Where the code allows or checks for `null`, the model uses `Option` and `None` stands for `null`. This covers:
  - a type's local namespace, base type id and parent type id;
  - a property's local namespace and orderability;
  - the type passed to `addType`;
  - the type id, page size and skip count of `getTypeChildren`;
  - the type id, depth and property-definitions flag of `getTypesDescendants`;
  - the type id of `getTypeDefinition`;
  - configuration values and the mount path.

  Every other field and argument is a plain value that cannot be `null` (see "Left out").
- A thrown exception becomes a `Failure` carrying the exception kind and its message. This includes the `IllegalArgumentException` that the system property lookup throws for the empty name.

## Model

| member | source | states |
|---|---|---|
| CmisModel.CreatePropDef | chemistry-opencmis-server/chemistry-opencmis-server-jcr/src/main/java/org/apache/chemistry/opencmis/jcr/TypeManager.java:406-454 | a property definition whose id, local name and query name are all the given id; its labels, datatype, cardinality, updatability and the inherited and required flags are as passed; it is never queryable |
| PropertySets.AddPropertyDefinitions | chemistry-opencmis-server/chemistry-opencmis-server-jcr/src/main/java/org/apache/chemistry/opencmis/jcr/TypeManager.java:314-341 | adding a list of definitions to a property map keyed by id: the result holds exactly the old ids plus the new ones; an old entry survives unless redefined; with distinct ids, each id maps to its own definition |
| PropertySets.BuiltFrom | chemistry-opencmis-server/chemistry-opencmis-server-jcr/src/main/java/org/apache/chemistry/opencmis/jcr/TypeManager.java:93-94 | base properties followed by a disjoint second set give a map of exactly both id sets; each entry is its own spec's definition, keyed by its own id and not inherited |
| PropertySets.FolderPropertyMap | chemistry-opencmis-server/chemistry-opencmis-server-jcr/src/main/java/org/apache/chemistry/opencmis/jcr/TypeManager.java:343-353 | the seeded folder map is exactly the nine base ids plus the three folder ids, none inherited; allowed-child-types is multi-valued; the change token is optional; the name is required and read-write |
| PropertySets.DocumentPropertyMap | chemistry-opencmis-server/chemistry-opencmis-server-jcr/src/main/java/org/apache/chemistry/opencmis/jcr/TypeManager.java:355-401 | the seeded document map is exactly the base ids plus the fourteen document ids, none inherited; the version series id and the checked-out flag are required; checked-out-by has datatype id |
| CmisModel.VersionableOnlyDocuments | chemistry-opencmis-server/chemistry-opencmis-server-jcr/src/main/java/org/apache/chemistry/opencmis/jcr/TypeManager.java:294-298 | only a document type definition can be versionable; for one, the answer is its own versionable flag; folder and other definitions never are |
| TypeManager.AddTypeInternal | chemistry-opencmis-server/chemistry-opencmis-server-jcr/src/main/java/org/apache/chemistry/opencmis/jcr/TypeManager.java:459-484 | a taken id leaves the registry unchanged; otherwise exactly the new key is added, with no children and the next rank; every other node keeps its definition and rank; only the registered parent's children change, by the new id at the end |
| TypeManager.AddTypeInternalKeepsValid | chemistry-opencmis-server/chemistry-opencmis-server-jcr/src/main/java/org/apache/chemistry/opencmis/jcr/TypeManager.java:459-484 | the internal insert keeps the registry invariant: every child is registered, names its parent and was registered after it |
| TypeManager.SeededRegistry | chemistry-opencmis-server/chemistry-opencmis-server-jcr/src/main/java/org/apache/chemistry/opencmis/jcr/TypeManager.java:73-140 | the constructed registry is valid and holds exactly the folder, document and unversioned-document ids; the unversioned document is the only child of the document root, and the folder has no children |
| TypeManager.SeededVersionability | chemistry-opencmis-server/chemistry-opencmis-server-jcr/src/main/java/org/apache/chemistry/opencmis/jcr/TypeManager.java:73-140 | of the seeded types, a type is versionable exactly when it is the document root |
| TypeManager.SeededLacksRelationshipAndPolicy | chemistry-opencmis-server/chemistry-opencmis-server-jcr/src/main/java/org/apache/chemistry/opencmis/jcr/TypeManager.java:73-140 | the constructor registers neither the relationship base nor the policy base |
| TypeManager.Inherit | chemistry-opencmis-server/chemistry-opencmis-server-jcr/src/main/java/org/apache/chemistry/opencmis/jcr/TypeManager.java:175-180 | the new type keeps every field except its properties; its properties are its own ids plus the base's; each base property is present and marked inherited, replacing an own property with that id; other own properties are unchanged |
| TypeManager.AddType | chemistry-opencmis-server/chemistry-opencmis-server-jcr/src/main/java/org/apache/chemistry/opencmis/jcr/TypeManager.java:147-188 | a null type or null base id answers false and changes nothing; the call fails with a null dereference exactly when the base's well-known id is unregistered; otherwise it inserts the inheriting copy and answers true |
| TypeManager.AddTypeKeepsValid | chemistry-opencmis-server/chemistry-opencmis-server-jcr/src/main/java/org/apache/chemistry/opencmis/jcr/TypeManager.java:147-188 | a successful registration keeps the registry invariant |
| TypeManager.AddTypeKeepsDefinitions | chemistry-opencmis-server/chemistry-opencmis-server-jcr/src/main/java/org/apache/chemistry/opencmis/jcr/TypeManager.java:464-467 | registration never removes or replaces a stored definition |
| TypeManager.AddTypeLinksNewType | chemistry-opencmis-server/chemistry-opencmis-server-jcr/src/main/java/org/apache/chemistry/opencmis/jcr/TypeManager.java:469-483 | a new id is indexed with no children; it appears among a registered type's children exactly when that type is its parent, appended at the end |
| TypeManager.AddTypeUnregisteredBaseFails | chemistry-opencmis-server/chemistry-opencmis-server-jcr/src/main/java/org/apache/chemistry/opencmis/jcr/TypeManager.java:164-169 | with the relationship and policy ids unregistered, registering a relationship or policy subtype fails with a null dereference |
| TypeManager.AddDocumentSubtypeInherits | chemistry-opencmis-server/chemistry-opencmis-server-jcr/src/main/java/org/apache/chemistry/opencmis/jcr/TypeManager.java:157-159 | a new document subtype stores every base and document property id, marked inherited, and keeps its own properties with other ids |
| TypeManager.AddTypeDuplicateReportsTrue | chemistry-opencmis-server/chemistry-opencmis-server-jcr/src/main/java/org/apache/chemistry/opencmis/jcr/TypeManager.java:183-187 | registering a type whose id is taken leaves the registry unchanged and still answers true |
| TypeManager.AddTypeReportingDuplicates | chemistry-opencmis-server/chemistry-opencmis-server-jcr/src/main/java/org/apache/chemistry/opencmis/jcr/TypeManager.java:142-146 | the documented contract: the same outcome and registry as registration, with the answer true exactly when a new id was added |
| TypeManager.GetType | chemistry-opencmis-server/chemistry-opencmis-server-jcr/src/main/java/org/apache/chemistry/opencmis/jcr/TypeManager.java:307-310 | a definition exactly for registered ids, carrying the id asked for |
| TypeManager.GetTypeDefinition | chemistry-opencmis-server/chemistry-opencmis-server-jcr/src/main/java/org/apache/chemistry/opencmis/jcr/TypeManager.java:285-292 | succeeds exactly for registered ids, with the same definition as the internal lookup; otherwise fails with object-not-found and the message "Type '<id>' is unknown!" |
| TypeChildren.Paginate | chemistry-opencmis-server/chemistry-opencmis-server-jcr/src/main/java/org/apache/chemistry/opencmis/jcr/TypeManager.java:227-239 | the children loop keeps the window after the first `skip` children, at most `max` long; the skip counter is left at what the children could not absorb |
| TypeChildren.RootPage | chemistry-opencmis-server/chemistry-opencmis-server-jcr/src/main/java/org/apache/chemistry/opencmis/jcr/TypeManager.java:209-216 | the base-root page is the window after `skip` of [folder, document], at most `max` long |
| TypeChildren.RootChildren | chemistry-opencmis-server/chemistry-opencmis-server-jcr/src/main/java/org/apache/chemistry/opencmis/jcr/TypeManager.java:208-220 | the base-root page with numItems 2, and hasMoreItems set exactly when the page plus the skip falls short of 2 |
| TypeChildren.ChildPage | chemistry-opencmis-server/chemistry-opencmis-server-jcr/src/main/java/org/apache/chemistry/opencmis/jcr/TypeManager.java:222-242 | the page is as long as the page size or the children left after the skip, whichever is smaller; entry i is child skip+i; numItems is the child count; hasMoreItems compares page size plus leftover skip with the child count |
| TypeChildren.GetTypeChildren | chemistry-opencmis-server/chemistry-opencmis-server-jcr/src/main/java/org/apache/chemistry/opencmis/jcr/TypeManager.java:193-249 | a page size below one gives an empty list with both counters unset, as does an unknown or childless type; the list never exceeds the page size; without property definitions every returned map is empty; otherwise the root page or the child page |
| TypeChildren.ChildPageBounds | chemistry-opencmis-server/chemistry-opencmis-server-jcr/src/main/java/org/apache/chemistry/opencmis/jcr/TypeManager.java:227-241 | the child page is bounded by the page size and by what is left after the skip; when the skip does not exceed the child count, hasMoreItems is just "page shorter than all children" |
| TypeChildren.HasMoreItemsAfterLastChild | chemistry-opencmis-server/chemistry-opencmis-server-jcr/src/main/java/org/apache/chemistry/opencmis/jcr/TypeManager.java:241 | with skip n-1 over n >= 2 children and no page size, the page is the last child alone, yet hasMoreItems is true |
| TypeChildren.GetTypeChildrenIntended | chemistry-opencmis-server/chemistry-opencmis-server-jcr/src/main/java/org/apache/chemistry/opencmis/jcr/TypeManager.java:218 | the corrected flag: the same list and numItems; whenever numItems is set, hasMoreItems is the page size plus the requested skip falling short of numItems, as the root branch computes it; empty answers leave it unset |
| TypeChildren.IntendedHasMoreItemsMeansChildFollows | chemistry-opencmis-server/chemistry-opencmis-server-jcr/src/main/java/org/apache/chemistry/opencmis/jcr/TypeManager.java:222-242 | with the corrected flag, hasMoreItems is true exactly when some child follows the returned page |
| TypeDescendants.Walk | chemistry-opencmis-server/chemistry-opencmis-server-jcr/src/main/java/org/apache/chemistry/opencmis/jcr/TypeManager.java:489-512 | the root carries the requested type, its properties cleared unless asked for; depth 0 gives a leaf; otherwise one child container per stored child, in order, each for that child |
| TypeDescendants.GetTypesDescendants | chemistry-opencmis-server/chemistry-opencmis-server-jcr/src/main/java/org/apache/chemistry/opencmis/jcr/TypeManager.java:257-283 | fails with invalid-argument "Depth must not be 0!" exactly for depth 0; with no id, the folder tree then the document tree; a known id gives one tree, an unknown id none |
| TypeDescendants.WalkIsPrunedSubtree | chemistry-opencmis-server/chemistry-opencmis-server-jcr/src/main/java/org/apache/chemistry/opencmis/jcr/TypeManager.java:489-512 | the walk at any depth equals the full stored subtree cut at that depth, with properties dropped unless asked for |
| TypeDescendants.PruneHeight | chemistry-opencmis-server/chemistry-opencmis-server-jcr/src/main/java/org/apache/chemistry/opencmis/jcr/TypeManager.java:502-509 | a tree cut at a positive depth is at most that many levels deep |
| TypeDescendants.PruneUnbounded | chemistry-opencmis-server/chemistry-opencmis-server-jcr/src/main/java/org/apache/chemistry/opencmis/jcr/TypeManager.java:502-509 | a negative depth with property definitions leaves the tree whole |
| TypeDescendants.PruneClearsProperties | chemistry-opencmis-server/chemistry-opencmis-server-jcr/src/main/java/org/apache/chemistry/opencmis/jcr/TypeManager.java:494-497 | without property definitions, every node of the cut tree has an empty property map |
| TypeDescendants.DescendantsAreCutSubtrees | chemistry-opencmis-server/chemistry-opencmis-server-jcr/src/main/java/org/apache/chemistry/opencmis/jcr/TypeManager.java:257-283 | each returned tree is the stored subtree below its root type, cut at the requested depth: at most that deep when positive; the whole subtree when negative or missing with definitions; every property map empty unless definitions were requested |
| ServiceConfiguration.ReplaceSystemProperties | chemistry-opencmis-server/chemistry-opencmis-server-jcr/src/main/java/org/apache/chemistry/opencmis/jcr/JcrServiceFactory.java:135-168 | the character scan returns null for null; it fails with illegal-argument "key can't be empty" exactly when it closes a brace pair with nothing between them; otherwise it returns the value's expansion: characters outside braces are copied, `{name}` becomes the property value or nothing, and an unclosed brace drops the rest |
| ServiceConfiguration.ExpandWithoutBraces | chemistry-opencmis-server/chemistry-opencmis-server-jcr/src/main/java/org/apache/chemistry/opencmis/jcr/JcrServiceFactory.java:160-162 | a value without an opening brace is accepted and returned unchanged |
| ServiceConfiguration.ExpandLiteralPrefix | chemistry-opencmis-server/chemistry-opencmis-server-jcr/src/main/java/org/apache/chemistry/opencmis/jcr/JcrServiceFactory.java:156-162 | brace-free text in front of a value is copied as it is, and expansion continues after it |
| ServiceConfiguration.ExpandSubstitutes | chemistry-opencmis-server/chemistry-opencmis-server-jcr/src/main/java/org/apache/chemistry/opencmis/jcr/JcrServiceFactory.java:147-159 | a non-empty `{name}` after brace-free text becomes the property value, or nothing when unset, and expansion continues after the closing brace; the value is rejected exactly when its rest is; the name may contain `{` |
| ServiceConfiguration.DollarIsLiteral | chemistry-opencmis-server/chemistry-opencmis-server-jcr/src/main/java/org/apache/chemistry/opencmis/jcr/JcrServiceFactory.java:156-162 | for a non-empty name `x`, `${x}` is accepted and becomes `$` followed by the value of `x` |
| ServiceConfiguration.EmptyReferenceFails | chemistry-opencmis-server/chemistry-opencmis-server-jcr/src/main/java/org/apache/chemistry/opencmis/jcr/JcrServiceFactory.java:148-149 | `{}` reached from brace-free text looks up the empty name, and the value is rejected with illegal-argument "key can't be empty", whatever follows |
| ServiceConfiguration.UnterminatedBraceDropsRest | chemistry-opencmis-server/chemistry-opencmis-server-jcr/src/main/java/org/apache/chemistry/opencmis/jcr/JcrServiceFactory.java:147-167 | a value whose first opening brace follows brace-free text and is never closed is accepted, and everything from that brace on is dropped |
| ServiceConfiguration.ExpandWithoutPropertiesShrinks | chemistry-opencmis-server/chemistry-opencmis-server-jcr/src/main/java/org/apache/chemistry/opencmis/jcr/JcrServiceFactory.java:147-163 | with no system property set, expansion never lengthens a value |
| ServiceConfiguration.ExpandLeavesNoOpenBrace | chemistry-opencmis-server/chemistry-opencmis-server-jcr/src/main/java/org/apache/chemistry/opencmis/jcr/JcrServiceFactory.java:147-163 | when no property value contains `{`, neither does an expanded value |
| ServiceConfiguration.ExpandIdempotent | chemistry-opencmis-server/chemistry-opencmis-server-jcr/src/main/java/org/apache/chemistry/opencmis/jcr/JcrServiceFactory.java:135-168 | when no property value contains `{`, expanding twice gives the same as expanding once, and a value that is accepted once is accepted again with the same result |
| ServiceConfiguration.ReadConfiguration | chemistry-opencmis-server/chemistry-opencmis-server-jcr/src/main/java/org/apache/chemistry/opencmis/jcr/JcrServiceFactory.java:109-133 | reading fails with illegal-argument "key can't be empty" exactly when some `jcr.`-prefixed value holds an empty reference; otherwise every `jcr.`-prefixed key is entered under the rest of its name with its value expanded, every entry comes from such a key, the mount path is the `mount-path` value if present and unset otherwise, and other keys change nothing |

## Left out

- Logging, the repository lookup through the service loader (`acquireJcrRepository`), the factory lifecycle (`init`, `destroy`, `getService`) and the web-service port class: they are I/O or wiring, not registry or configuration logic.
- `System.getProperty` is a parameter: a map from property name to value. Its rejection of the empty name is modelled. Its rejection of a null name cannot arise, because the collected name is never null once a brace has opened.
- `BigInteger.intValue()` truncation of `maxItems`, `skipCount` and `depth`: the model takes these counters as unbounded integers that already fit in an int.
- Display strings are kept as given, but no property of the model depends on them beyond the error messages.
- `createPropDef`'s `default` branch ("Unknown datatype!") cannot be reached: the datatype is a closed enumeration here. The same holds for `addType`'s final `else return false` over the four base type ids.
- The copy through the binding converter is the identity on values. So mutation through a shared reference, such as the unversioned document sharing the document's property map after `initialize`, has no counterpart. The property contents are the same either way.
- The Boolean `includePropertyDefinitions` of `getTypeChildren` is a plain `bool`. That of `getTypesDescendants` is an `Option<bool>`, because null is treated as false there.
- A null type id in the internal lookup (`getType`) is not modelled, since it is an internal call with a non-null argument. The `getTypeDefinition` message for a null id is modelled.
- A child list that was never created and an empty one are both the empty sequence. A type gets its child list when its first child is registered. The container class's default is not part of this model, so a type without children is taken to have no list.
- The initial value of `hasMoreItems` and `numItems` in the library's list class is not part of this model: both are `None` when the code does not set them.
- ReadConfiguration: Java visits the keys in sorted order, and the model visits them in an unspecified order. No two prefixed keys share a stripped name and only one key is `mount-path`, so the result does not depend on the order. A failing value aborts the reading with the same error whichever failing key comes first. The model starts from the state of a freshly created factory, with no mount path.
- Type and property ids, local names, query names, display names and descriptions are plain strings and cannot be null. A type with a null id, which the Java registry would store under the null key, cannot be expressed.
- TypeManager.AddTypeInternal: the Java method also returns early on a null type. Callers never pass one, so the model takes a definition.
- CMIS 1.0 gives the checked-out-by document property the string datatype. The code declares it with datatype id, and the model follows the code (`PropertySets.DocumentPropertyMap`).
- The `addType` javadoc (TypeManager.java:145) promises true only when the type was added. The code answers true for an already taken id as well, and the model follows the code. See the second finding.

## Findings

| source | as written | input that shows it | evidently intended | confidence | as-written member | corrected member |
|---|---|---|---|---|---|---|
| chemistry-opencmis-server/chemistry-opencmis-server-jcr/src/main/java/org/apache/chemistry/opencmis/jcr/TypeManager.java:241 | hasMoreItems compares the page size plus the skip counter after the loop, which the loop has counted down to 0, with the child count | a type with two children, skipCount 1, maxItems null: the page is the second and last child, yet hasMoreItems is true | compare the page size plus the requested skip with the child count, as the root branch at line 218 does | not executed | TypeChildren.HasMoreItemsAfterLastChild | TypeChildren.GetTypeChildrenIntended, TypeChildren.IntendedHasMoreItemsMeansChildFollows |
| chemistry-opencmis-server/chemistry-opencmis-server-jcr/src/main/java/org/apache/chemistry/opencmis/jcr/TypeManager.java:183-187 | addType returns true after the internal insert, which silently ignores a taken id | a type whose id is cmis:folder and whose base is the folder: nothing is added, and the answer is true | true iff the type was added, as the javadoc at line 145 states | not executed | TypeManager.AddTypeDuplicateReportsTrue | TypeManager.AddTypeReportingDuplicates |
