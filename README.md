# Catalog schema representation and order-shipment checks, modelled in Dafny

This project models two parts of the Medusa commerce platform.

**The catalog's schema object representation** (`packages/catalog/src/utils/build-config.ts`).
The catalog module receives a GraphQL schema in which every object type carries a
`@Listeners` directive. It builds one record per entity of that schema. Each record holds:

- the owning module's joiner configuration and the alias the module exposes the entity under;
- the event names to listen to;
- the fields to store;
- links to its parents.

A parent in another module is reached through a link module, with a chain of intermediate
entities when the foreign key does not point at the entity itself. Once every type is
processed, a table maps each dotted alias path (`product.variants`) to the record it reaches.
A path that abbreviates a longer path through a link module is marked as a shortcut of it.

The model keeps the source's form:

- `processEntity` and its helpers update the records in place. They are methods of the class
  `EntityGraph.ObjectRepresentation`, whose `entities` map is the object representation keyed
  by entity name, with `order` holding the creation order.
- Each method is proved equal to a function that states the step on values: the steps of
  `processEntity` (`ParentStep`, `ParentsAttached`, `EntityProcessed` and those below them)
  are in `GraphSteps`, and the loop of `buildSchemaObjectRepresentation` (`TypeStep`,
  `TypesProcessedOver`, `TypesProcessed`) is in `BuildConfig`. Lemmas about those functions
  state what each step promises.
- Each method also states how it extends the creation order on success. `Creation` lists, for
  each step on given records, the names it creates in the order it creates them
  (`EntityCreated`, `ParentCreated`, `LinkCreated` and so on), and proves that these are
  exactly the new records, each once. `BuildConfig.CreationOrder` is that list for the whole
  build. It is the order `buildAliasMap` walks, so it decides which record's entry a shared
  path keeps.
- The lookups are functions, and their loops methods proved equal to them:
  `retrieveAliasForEntity` is `AliasLookup.RetrieveAliasForEntity`, `retrieveModuleAndAlias` is
  `ModuleResolver.ModuleAndAlias`, and `retrieveLinkModuleAndAlias` is `LinkResolver.LinkLookup`,
  with `MetadataFor` for one link module and `Search` for its recursive search.
- The alias table (`buildAliasMap`) is a pair of functions, `AliasPaths` and `AliasTable`,
  with the recursive walk and its loops as methods proved equal to them.

**The order-shipment checks** (`packages/core/core-flows/src/order/workflows/create-shipment.ts`).
These are the checks that run before a shipment is registered:

- the order is not cancelled;
- every item to ship belongs to the order;
- the fulfillment exists.

The model also covers the record handed to the registration step. These are pure functions;
each thrown error is a `ShipmentError` value.

Errors the source throws, including the JavaScript type errors of reading through `null` or
`undefined`, are values: `CatalogErrors.BuildError` and `CreateShipment.ShipmentError`.

## Model

| member | source | states |
|---|---|---|
| AliasLookup.Expand | packages/catalog/src/utils/build-config.ts:79-85 | an alias with one name gives one entry; an array of names gives one entry per name, in order, each with the declaration's entity |
| AliasLookup.Present | packages/catalog/src/utils/build-config.ts:75 | the null entries of an alias array are dropped and every declaration kept |
| AliasLookup.FirstMatch | packages/catalog/src/utils/build-config.ts:88-91 | the index of the first entry whose entity (or name) equals the entity ignoring case; none exactly when no entry matches |
| AliasLookup.RetrieveAliasForEntity | packages/catalog/src/utils/build-config.ts:72-95 | no alias exactly when no flattened entry matches; otherwise the name of the first matching entry |
| AliasLookup.AliasLookupIgnoresCase | packages/catalog/src/utils/build-config.ts:89-90 | two entity names equal up to letter case get the same alias |
| AliasLookup.NullAliasEntriesIgnored | packages/catalog/src/utils/build-config.ts:75-78 | a null entry anywhere in an alias array changes nothing |
| AliasLookup.SingleAliasIsOneElementArray | packages/catalog/src/utils/build-config.ts:73 | a single alias declaration behaves as an array holding only it |
| AliasLookup.AliasLookupIsFirstMatch | packages/catalog/src/utils/build-config.ts:88-91 | declarations are searched in order: a match in an earlier part wins over the rest |
| ModuleResolver.FirstOwner | packages/catalog/src/utils/build-config.ts:101-132 | the first module, in registry order, whose schema declares the entity; none exactly when no module does |
| ModuleResolver.ModuleAndAliasResolution | packages/catalog/src/utils/build-config.ts:97-147 | unowned exactly when no module's schema declares the entity; otherwise the first owner decides, giving a non-empty alias its aliases give, or a missing-alias error naming that owner |
| ModuleResolver.ModuleAndAliasNonEmpty | packages/catalog/src/utils/build-config.ts:141-147 | a resolved entity always has a non-empty alias |
| ModuleResolver.RetrieveModuleAndAlias | packages/catalog/src/utils/build-config.ts:97-147 | the registry scan with its early break computes `ModuleAndAlias` |
| ModuleResolver.LaterModulesIgnored | packages/catalog/src/utils/build-config.ts:130-132 | once a module owns the entity, modules registered after it never change the result |
| ModuleResolver.FirstRegisteredOwnerWins | packages/catalog/src/utils/build-config.ts:113-132 | when several modules own the entity, the first one decides alone |
| ModuleResolver.FirstOwnerAppend | packages/catalog/src/utils/build-config.ts:101-132 | appending modules after an owner leaves the first owner unchanged |
| LinkResolver.SearchIntermediate | packages/catalog/src/utils/build-config.ts:246-273 | the recursive search, with the captured counter and list passed in and out, computes `Search` |
| LinkResolver.Search | packages/catalog/src/utils/build-config.ts:246-271 | fails only past the depth bound, as the unbounded-search error; the counter grows by the entities recorded plus one when the call itself hits; a hit means the target has a field wrapping the entity; every recorded entity is a type other than the target that the target has a field of |
| LinkResolver.SearchFrom | packages/catalog/src/utils/build-config.ts:249-270 | the rest of one call's loop over the type map keeps the same promises |
| LinkResolver.SearchNoEncloser | packages/catalog/src/utils/build-config.ts:249-270 | when no type encloses the entity, nothing is counted or recorded |
| LinkResolver.SearchTargetFirst | packages/catalog/src/utils/build-config.ts:249-258 | when the target is the first type enclosing the entity, one hit is counted there and the loop stops, whatever later types hold |
| LinkResolver.Candidates | packages/catalog/src/utils/build-config.ts:176-187 | only link modules whose first and second relationships name the primary and foreign services |
| LinkResolver.CandidatesAppend | packages/catalog/src/utils/build-config.ts:176-187 | the `filter` keeps registry order and multiplicity: the candidates of two registry parts joined are the first part's followed by the second's |
| LinkResolver.CandidatesSingle | packages/catalog/src/utils/build-config.ts:176-187 | a single module is a candidate once exactly when it joins the two services |
| LinkResolver.CandidateIncluded | packages/catalog/src/utils/build-config.ts:176-187 | every joining link module is a candidate |
| LinkResolver.LinkMetadataFor | packages/catalog/src/utils/build-config.ts:188-289 | one turn of the lookup's loop for a joining link module computes `MetadataFor` |
| LinkResolver.MetadataFor | packages/catalog/src/utils/build-config.ts:188-289 | a missing link name, then a missing link entity, fail first; a direct link then succeeds with no intermediates; otherwise absent linkable keys, then an absent schema, fail; otherwise it succeeds exactly when the search from the foreign entity counts one hit, with the recorded entities followed by the entity the foreign key names as intermediates; a search past the depth bound gives its error and any other count the ambiguous-path error; every success is valid metadata for the module |
| LinkResolver.NoEncloserIsAmbiguous | packages/catalog/src/utils/build-config.ts:246-279 | an indirect link whose foreign entity no type encloses has no path and fails as ambiguous |
| LinkResolver.TargetFirstEncloserLinks | packages/catalog/src/utils/build-config.ts:228-288 | when the entity the foreign key names is the first type enclosing the foreign entity, it is the link's only intermediate |
| LinkResolver.RetrieveLinkModuleAndAlias | packages/catalog/src/utils/build-config.ts:151-300 | the loop over the registry, with its throws, computes `LinkLookup` |
| LinkResolver.LinkLookup | packages/catalog/src/utils/build-config.ts:151-300 | succeeds exactly when every link module's relationships can be read, some link module joins the two services and each joining one yields metadata; the entries are then those metadata in registry order, each valid for its module; the no-link-module error means none joins; the malformed-module error means a link module cannot be read; any other error is some joining module's own error |
| LinkResolver.LinkLookupFromResult | packages/catalog/src/utils/build-config.ts:176-291 | over the first modules of the registry: succeeds exactly when each link module among them can be read and each joining one yields metadata, one entry per joining module in order; a failure is an unreadable link module or a joining module's own error |
| LinkResolver.LinkLookupFromOk | packages/catalog/src/utils/build-config.ts:176-291 | over the first modules of the registry: success exactly when each link module among them can be read and each joining one yields metadata |
| LinkResolver.LinkLookupFromEntries | packages/catalog/src/utils/build-config.ts:176-291 | on success, one entry per joining module, in registry order, each that module's metadata |
| LinkResolver.LinkLookupFromErr | packages/catalog/src/utils/build-config.ts:176-291 | a failure is an unreadable link module or the error of a joining module |
| LinkResolver.LinkLookupPrefixErr | packages/catalog/src/utils/build-config.ts:176-291 | a failure on the first modules is the failure of the whole loop |
| LinkResolver.LinkedEntityNameAndAlias | packages/catalog/src/utils/build-config.ts:30-70 | succeeds exactly when the first relationship naming the related module exists, the related module's linkable keys map its foreign key to a non-empty entity name, and the related module has a non-empty alias for that entity (`LinkedThrough`); the entity is then that linkable-keys entity and the alias that alias; no such relationship is an error, an absent linkable-keys map is `MissingLinkableKeys`, and an unmapped or empty key is `UnknownLinkableKey` |
| LinkResolver.RelationshipWith | packages/catalog/src/utils/build-config.ts:35-37 | the first relationship with the service; none exactly when no relationship names it |
| Representation.GetOrInsertKeeps | packages/catalog/src/utils/build-config.ts:335-347 | the record for the name exists afterwards; only a missing one is added, as a fresh record; all others are unchanged; no dangling link appears |
| Representation.GetOrInsertIdempotent | packages/catalog/src/utils/build-config.ts:339-346 | a second access by the same name finds the record the first left |
| Representation.PutRecord | packages/catalog/src/utils/build-config.ts:375-606 | storing a record keeps the arena's invariants that the record itself respects |
| Representation.GrowsTransitive | packages/catalog/src/utils/build-config.ts:375-606 | records present and resolved stay so across consecutive steps |
| Schema.WrappedName | packages/catalog/src/utils/build-config.ts:430 | only `[X]` and `X!` reach a type name one wrapper down |
| Schema.FieldOf | packages/catalog/src/utils/build-config.ts:449-454 | the first field whose type wraps the entity; none exactly when no field does |
| Schema.SchemaParents | packages/catalog/src/utils/build-config.ts:426-433 | only types with an AST node and a field wrapping the entity, at most one entry per type |
| Schema.SchemaParentsMembers | packages/catalog/src/utils/build-config.ts:426-433 | a declaration is listed exactly when it is in the type map, has an AST node and has a field wrapping the entity |
| Schema.SchemaParentsAppend | packages/catalog/src/utils/build-config.ts:426-433 | the `filter` keeps type-map order and multiplicity: the parents over two parts of the type map joined are the first part's followed by the second's |
| Schema.SchemaParentsSingle | packages/catalog/src/utils/build-config.ts:426-433 | a single declaration is listed once exactly when it is a schema parent |
| Text.DotJoin | packages/catalog/src/utils/build-config.ts:675 | appends `.` and the suffix only when the suffix is non-empty |
| Text.FirstSegment | packages/catalog/src/utils/build-config.ts:664 | the prefix of the string before its first dot |
| Text.EqualIgnoringCaseIsLowerEquality | packages/catalog/src/utils/build-config.ts:90 | comparison ignoring case is equality of the lower-cased strings |
| GraphSteps.FindDirective | packages/catalog/src/utils/build-config.ts:351-354 | the first directive with the name; none exactly when no directive has it |
| Wrappers.FirstWith | packages/catalog/src/utils/build-config.ts:351-354 | the index of the first element with the key; none exactly when no element has it |
| GraphSteps.ApplyDirectives | packages/catalog/src/utils/build-config.ts:349-373 | a success changes only the listeners; a failure is a missing required directive or a directive without argument, naming the entity |
| GraphSteps.ListenersDirectiveRule | packages/catalog/src/utils/build-config.ts:349-373 | a type without `@Listeners` fails as missing the required directive; one without an argument fails; otherwise its list of values becomes the listeners |
| GraphSteps.RelationshipKeys | packages/catalog/src/utils/build-config.ts:524-535 | the non-empty foreign keys of exactly the relationships with the parent's or the child's service |
| GraphSteps.LinkNodeSetKeeps | packages/catalog/src/utils/build-config.ts:502-535 | configuring the link node touches only its record, adds no dangling link and keeps resolved records resolved |
| GraphSteps.IntermediateKeepsInvariants | packages/catalog/src/utils/build-config.ts:545-589 | a chain step adds no dangling link, keeps records under their names and resolves the intermediate it configures |
| GraphSteps.Lookups | packages/catalog/src/utils/build-config.ts:558-564 | one module-and-alias lookup per intermediate, in order |
| GraphSteps.ChainFrom | packages/catalog/src/utils/build-config.ts:544-589 | a completed chain, from the last intermediate down to the first, keeps every record and holds the link node and the first intermediate |
| GraphSteps.ChainFromFails | packages/catalog/src/utils/build-config.ts:558-564 | a failed lookup ends the chain with its error |
| GraphSteps.ChainFromStep | packages/catalog/src/utils/build-config.ts:544-589 | a successful lookup configures that intermediate, and the chain continues below it |
| GraphSteps.ChildAttachedKeeps | packages/catalog/src/utils/build-config.ts:591-609 | attaching the child through the outer record touches only the child and keeps the invariants |
| GraphSteps.LinkAttached | packages/catalog/src/utils/build-config.ts:500-610 | a completed pass for one link module keeps every record and holds the link node and the record the child is attached through |
| GraphSteps.LinksAttached | packages/catalog/src/utils/build-config.ts:500-610 | a completed pass over the link modules, applied in order, keeps every record |
| GraphSteps.ParentAttachedKeeps | packages/catalog/src/utils/build-config.ts:472-486 | attaching a parent of the same service touches only the child and keeps the invariants |
| GraphSteps.ParentAttachedLinksChild | packages/catalog/src/utils/build-config.ts:472-486 | a same-service parent adds exactly one parent link to the child and the parent's id path to its fields; nothing else in the record changes |
| GraphSteps.ParentField | packages/catalog/src/utils/build-config.ts:449-456 | the parent's field holding the child is one of its fields and wraps the child |
| GraphSteps.RecordSetUp | packages/catalog/src/utils/build-config.ts:392-408 | a successful set-up leaves a record for the entity |
| GraphSteps.RecordSetUpKeeps | packages/catalog/src/utils/build-config.ts:392-408 | creating the record, applying directives and storing fields adds only that record and keeps the invariants |
| GraphSteps.RecordResolvedKeeps | packages/catalog/src/utils/build-config.ts:414-420 | storing the module and alias keeps the invariants |
| GraphSteps.EntitySetUpFailures | packages/catalog/src/utils/build-config.ts:392-420 | the set-up fails on the directives first, then on the module lookup, and succeeds only when both do |
| GraphSteps.EntitySetUpRecord | packages/catalog/src/utils/build-config.ts:392-420 | after set-up the record carries `@Listeners`' values, the projection, the first owning module and its non-empty alias; parents and other records are unchanged |
| GraphSteps.EntitySetUpKeeps | packages/catalog/src/utils/build-config.ts:392-420 | the set-up keeps the invariants |
| GraphSteps.ChainLeavesOthers | packages/catalog/src/utils/build-config.ts:544-589 | the chain leaves alone every record none of its steps names |
| GraphSteps.ChainKeepsModule | packages/catalog/src/utils/build-config.ts:544-589 | a record keeps its module through the chain when every step naming it resolves to that module |
| GraphSteps.LookupsNameDetermined | packages/catalog/src/utils/build-config.ts:558-564 | equal names get equal lookups |
| GraphSteps.ChainResolves | packages/catalog/src/utils/build-config.ts:544-589 | a completed chain has resolved every intermediate to the module its lookup found |
| GraphSteps.SameNameSameOwner | packages/catalog/src/utils/build-config.ts:558-564 | earlier steps naming the same entity found the same module |
| GraphSteps.ResolvedExtend | packages/catalog/src/utils/build-config.ts:544-589 | one more resolved step extends the resolved prefix |
| GraphSteps.ChildAttachedKeepsResolved | packages/catalog/src/utils/build-config.ts:599-609 | attaching the child keeps every resolved intermediate |
| GraphSteps.ChainFromGrows | packages/catalog/src/utils/build-config.ts:544-589 | a record present before the chain is present after it |
| GraphSteps.LinkAttachedResolvesChain | packages/catalog/src/utils/build-config.ts:500-610 | after one link module, every intermediate is resolved to its own module |
| GraphSteps.LinkAttachedConfiguresLink | packages/catalog/src/utils/build-config.ts:502-535 | after one link module, the link node carries the link module, the link alias and the attach/detach listeners, with the schema parent as its only parent, and as fields the keys of its relationships with the two services followed by the schema parent's id path |
| GraphSteps.IntermediateConfigures | packages/catalog/src/utils/build-config.ts:555-590 | one chain step gives its intermediate the create/update listeners, the fields `id` and the link's id path, its lookup's alias and module, and a list link to the record above it, and leaves the link alone |
| GraphSteps.ChainConfigures | packages/catalog/src/utils/build-config.ts:544-590 | a completed chain over distinct intermediates, none the link, leaves each intermediate with the create/update listeners, the fields `id` and the link's id path, the alias and module of its own lookup, and a list link to the record above it as its newest parent |
| GraphSteps.LinkAttachedConfiguresChain | packages/catalog/src/utils/build-config.ts:500-590 | after one link module, each intermediate, when they are distinct and neither the link nor the child, is configured that way with the link alias |
| GraphSteps.LinkAttachedLinksChild | packages/catalog/src/utils/build-config.ts:591-609 | after one link module, the child's newest parent link goes through the outer record, tagged with the schema parent, and its newest field is that record's id path |
| GraphSteps.LinksAttachedGrows | packages/catalog/src/utils/build-config.ts:500-609 | attaching the link modules removes no record and unresolves none |
| GraphSteps.LinksAttachedLinksChild | packages/catalog/src/utils/build-config.ts:500-609 | after a non-empty run of link modules, the child's newest parent link is the last module's: through its outer record, tagged with the schema parent |
| GraphSteps.ParentStep | packages/catalog/src/utils/build-config.ts:448-609 | one parent: its record created if missing; on success no record is lost or unresolved, and the parent has a resolved record |
| GraphSteps.ParentStepDirect | packages/catalog/src/utils/build-config.ts:470-486 | a resolved parent in the child's service, or a link-module parent, is attached directly, as `ParentAttached` |
| GraphSteps.ParentStepAcross | packages/catalog/src/utils/build-config.ts:487-609 | any other resolved parent: a failed link lookup is the step's failure; a successful one is non-empty and its link modules are attached in order, as `LinksAttached` |
| GraphSteps.ParentStepLinksChild | packages/catalog/src/utils/build-config.ts:448-609 | a successful step attaches the child to that parent: its newest parent link has the field's name and list flag and points at the parent, directly or as `inSchemaRef` |
| GraphSteps.ParentsAttached | packages/catalog/src/utils/build-config.ts:444-610 | the parents in turn, the first failure ending the pass; on success every parent has a resolved record and nothing resolved is lost |
| GraphSteps.ParentsAttachedAppend | packages/catalog/src/utils/build-config.ts:444-610 | one more parent at the end runs on the records the others left, and only when they all succeeded |
| GraphSteps.EntityProcessed | packages/catalog/src/utils/build-config.ts:375-610 | a failed set-up is the result; on success the entity and every schema parent have resolved records and nothing resolved is lost |
| GraphSteps.EntityProcessedParentsOnly | packages/catalog/src/utils/build-config.ts:426-443 | the entity is processed alike over any two type maps listing the same schema parents for it |
| EntityGraph.ObjectRepresentation.constructor | packages/catalog/src/utils/build-config.ts:713 | the representation starts with no records, no creation order and an empty table |
| EntityGraph.ObjectRepresentation.GetObjectRepresentationRef | packages/catalog/src/utils/build-config.ts:335-347 | the record is created only when missing, and then appended to the creation order; the names with a record gain `name` |
| EntityGraph.ObjectRepresentation.SetCustomDirectives | packages/catalog/src/utils/build-config.ts:349-373 | succeeds exactly when the directives apply; the record then becomes their result, and nothing changes on failure |
| EntityGraph.ObjectRepresentation.AttachSameModuleParent | packages/catalog/src/utils/build-config.ts:472-486 | the records become `ParentAttached` of the old ones |
| EntityGraph.ObjectRepresentation.ConfigureLinkNode | packages/catalog/src/utils/build-config.ts:502-535 | the records become `LinkNodeSet` of the old ones; no record is created |
| EntityGraph.ObjectRepresentation.SetIntermediate | packages/catalog/src/utils/build-config.ts:549-588 | the records become `Intermediate` of the old ones; the creation order grows by the intermediate when it had no record |
| EntityGraph.ObjectRepresentation.ChainStepAt | packages/catalog/src/utils/build-config.ts:544-589 | one turn of the downward loop: fails with the chain's error, or leaves a state from which the rest of the chain gives the same result; on success the intermediate's name is added to the records and, when it was missing, to the creation order |
| EntityGraph.ObjectRepresentation.ChainIntermediates | packages/catalog/src/utils/build-config.ts:544-589 | the loop over the intermediates, from the last down, computes `ChainFrom` with the registry lookups; on success the creation order grows by `ChainCreated`, the intermediates that had no record, from the last down |
| EntityGraph.ObjectRepresentation.AttachToChild | packages/catalog/src/utils/build-config.ts:591-609 | the records become `ChildAttached` of the old ones |
| EntityGraph.ObjectRepresentation.AttachViaLink | packages/catalog/src/utils/build-config.ts:500-610 | one link module's pass computes `LinkAttached`; on success the creation order grows by `LinkCreated`: the link node if new, then the new intermediates |
| EntityGraph.ObjectRepresentation.AttachViaLinks | packages/catalog/src/utils/build-config.ts:500-610 | the loop over the link modules computes `LinksAttached`; on success the creation order grows by `LinksCreated`, module after module |
| EntityGraph.ObjectRepresentation.SetUpRecord | packages/catalog/src/utils/build-config.ts:392-408 | computes `RecordSetUp`; the creation order grows by the entity when it had no record, whatever the outcome |
| EntityGraph.ObjectRepresentation.SetUpEntity | packages/catalog/src/utils/build-config.ts:392-420 | computes `EntitySetUp`; on success returns the resolved ownership and stores the owner on the record; the creation order grows by the entity when it had no record, whatever the outcome |
| EntityGraph.ObjectRepresentation.AttachAcrossModules | packages/catalog/src/utils/build-config.ts:488-610 | the link modules are those `LinkLookup` returns; a failed lookup is that failure with nothing changed; the modules found are applied with `LinksAttached`; a failed lookup leaves the creation order as it was; on success it grows by `LinksCreated` |
| EntityGraph.ObjectRepresentation.AttachParent | packages/catalog/src/utils/build-config.ts:448-609 | proved equal to `ParentStep` in both directions, with equal errors; an unresolved parent fails with nothing but its record created; a direct parent passes with no links; otherwise `links` are `LinkLookup`'s, and a failed lookup is the result with nothing but the parent's record created; on success the creation order grows by `ParentCreated` |
| EntityGraph.ObjectRepresentation.AttachParents | packages/catalog/src/utils/build-config.ts:444-610 | proved equal to `ParentsAttached` in both directions, with equal errors; on success the creation order grows by `ParentsCreated` |
| EntityGraph.ObjectRepresentation.ProcessEntity | packages/catalog/src/utils/build-config.ts:375-610 | proved equal to `EntityProcessed` in both directions, with equal errors; records are never removed; on success the creation order grows by `EntityCreated`: the entity if new, then what its parents create |
| Representation.Inserted | packages/catalog/src/utils/build-config.ts:339 | `??=` adds a name to the creation order exactly when it has no record yet |
| Creation.InsertedBetween | packages/catalog/src/utils/build-config.ts:339 | a first access creates exactly its own record, once |
| Creation.ChainCreatedBetween | packages/catalog/src/utils/build-config.ts:544-589 | a successful intermediate chain creates exactly the intermediates `ChainCreated` lists, each once, and no other record |
| Creation.LinkCreatedBetween | packages/catalog/src/utils/build-config.ts:500-610 | a successful link module creates exactly `LinkCreated`: the link node if new, then the new intermediates, each once |
| Creation.LinksCreatedBetween | packages/catalog/src/utils/build-config.ts:500-610 | successful link modules create exactly `LinksCreated`, each record once |
| Creation.ParentCreatedBetween | packages/catalog/src/utils/build-config.ts:448-609 | a successful parent step creates exactly `ParentCreated`: the parent if new, then what its link modules create |
| Creation.ParentsCreatedBetween | packages/catalog/src/utils/build-config.ts:444-610 | successful parent steps create exactly `ParentsCreated`, in parent order |
| Creation.EntityCreatedBetween | packages/catalog/src/utils/build-config.ts:375-610 | a successful `processEntity` creates exactly `EntityCreated`: the entity if new, then what its parents create, each once |
| Creation.EntityCreatedFirst | packages/catalog/src/utils/build-config.ts:391-396 | an entity without a record is the first record its own processing creates |
| AliasMap.AliasPaths | packages/catalog/src/utils/build-config.ts:630-678 | the walk's last path is the record's own alias with the suffix; every shortcut starts at the same root as its path; it fails only past the depth bound, as the unbounded-path error |
| AliasMap.ParentsPaths | packages/catalog/src/utils/build-config.ts:636-672 | the paths through the parent links keep shortcuts on their root |
| AliasMap.ParentPaths | packages/catalog/src/utils/build-config.ts:640-670 | the paths through one parent link keep shortcuts on their root |
| AliasMap.Plain | packages/catalog/src/utils/build-config.ts:643 | the paths with their shortcut marks dropped, same length and order |
| AliasMap.Shortcuts | packages/catalog/src/utils/build-config.ts:655-668 | a path is marked as a shortcut of the first canonical path exactly when the two share the first segment |
| AliasMap.ParentsPathsPrefixErr | packages/catalog/src/utils/build-config.ts:636-646 | a failure on some parent links persists with more of them |
| AliasMap.ParentsPathsStep | packages/catalog/src/utils/build-config.ts:636-646 | one more parent link appends that link's paths |
| AliasMap.AliasTablePrefixErr | packages/catalog/src/utils/build-config.ts:680-692 | a failure on some records persists with more of them |
| AliasMap.FillKeys | packages/catalog/src/utils/build-config.ts:683-691 | writing the paths adds exactly their aliases to the keys |
| AliasMap.FillLastWrite | packages/catalog/src/utils/build-config.ts:683-691 | a path's entry is the one its last write left: a later write overwrites |
| AliasMap.FillUntouched | packages/catalog/src/utils/build-config.ts:683-691 | a path none of the writes names keeps its entry |
| AliasMap.FillSound | packages/catalog/src/utils/build-config.ts:683-691 | every entry points at a record, and a stored shortcut is non-empty and shares the key's first segment |
| AliasMap.AliasTableSound | packages/catalog/src/utils/build-config.ts:627-695 | the whole table is sound in that sense |
| AliasMap.AliasTableKeysGrow | packages/catalog/src/utils/build-config.ts:680-692 | keys are never removed by later records |
| AliasMap.AliasTableHasPaths | packages/catalog/src/utils/build-config.ts:680-692 | every path of every record is a key, in particular each record's bare alias |
| AliasMap.AliasTableKeys | packages/catalog/src/utils/build-config.ts:680-692 | a path is a key exactly when some record's walk yields it |
| AliasMap.AliasTableLastWrite | packages/catalog/src/utils/build-config.ts:680-692 | a key's entry is the one its last writer left: the last path with that alias of the last record, in creation order, whose walk yields it |
| AliasMap.ParentPathListed | packages/catalog/src/utils/build-config.ts:636-675 | for each parent link, every path of the record it points at, continued by the link's property, is among the record's paths unmarked, in particular the parent's alias followed by the property; applied again, this reaches every ancestor |
| AliasMap.ParentsPathsListed | packages/catalog/src/utils/build-config.ts:636-646 | the same, for the first parent links |
| AliasMap.BuildAliasPath | packages/catalog/src/utils/build-config.ts:630-678 | `recursivelyBuildAliasPath` computes `AliasPaths` |
| AliasMap.BuildParentsPaths | packages/catalog/src/utils/build-config.ts:636-672 | the loop over the parent links computes `ParentsPaths` |
| AliasMap.BuildParentPaths | packages/catalog/src/utils/build-config.ts:640-670 | one parent link's turn computes `ParentPaths` |
| AliasMap.WritePaths | packages/catalog/src/utils/build-config.ts:683-691 | the inner loop writes the paths in order, as `Fill` does |
| AliasMap.BuildAliasMap | packages/catalog/src/utils/build-config.ts:627-695 | the records are walked in creation order, computing `AliasTable` |
| BuildConfig.ProcessedGrows | packages/catalog/src/utils/build-config.ts:715-724 | processed types stay processed as records grow |
| BuildConfig.BareAliasesListed | packages/catalog/src/utils/build-config.ts:727-728 | every record's bare alias is a key of the finished table |
| BuildConfig.TypeStep | packages/catalog/src/utils/build-config.ts:715-724 | a type without an AST node leaves the records as they are; nothing resolved is lost |
| BuildConfig.TypesProcessedOver | packages/catalog/src/utils/build-config.ts:715-724 | the loop on the records: the first failure ends it; nothing resolved is lost |
| BuildConfig.TypesProcessedResolves | packages/catalog/src/utils/build-config.ts:715-724 | a completed build has a resolved record for every type with an AST node |
| BuildConfig.TypesProcessedOverResolves | packages/catalog/src/utils/build-config.ts:715-724 | the same for any part of the loop |
| BuildConfig.TypesProcessedOverParentsOnly | packages/catalog/src/utils/build-config.ts:426-433 | the loop reads the type map only through the schema parents it lists |
| BuildConfig.TypesProcessedOverSkips | packages/catalog/src/utils/build-config.ts:716-718 | a type without an AST node is skipped wherever it stands in the loop |
| BuildConfig.NoAstNodeTypeIgnored | packages/catalog/src/utils/build-config.ts:715-724 | a type without an AST node changes nothing: the build over a type map holding it equals the build over the type map without it |
| BuildConfig.ProcessType | packages/catalog/src/utils/build-config.ts:715-724 | a type without an AST node passes with the records unchanged; any other is proved equal to `EntityProcessed`, with equal errors; on success the creation order grows by `TypeCreated` |
| BuildConfig.ProcessTypes | packages/catalog/src/utils/build-config.ts:715-724 | proved equal to `TypesProcessedOver` in both directions, with equal errors; on success the creation order grows by `TypesCreatedOver` |
| BuildConfig.TypesCreatedOverBetween | packages/catalog/src/utils/build-config.ts:715-724 | a completed loop creates exactly `TypesCreatedOver`, each record once |
| BuildConfig.CreationOrderLists | packages/catalog/src/utils/build-config.ts:713-724 | the creation order of a finished build lists every record exactly once, and nothing else |
| BuildConfig.TypesCreatedOverAppend | packages/catalog/src/utils/build-config.ts:715-724 | records created for earlier types come before those created for later ones |
| BuildConfig.FirstTypeCreatedFirst | packages/catalog/src/utils/build-config.ts:715-724 | the first type of a finished build, when it has an AST node, is the first name in the creation order |
| BuildConfig.BuildSchemaObjectRepresentation | packages/catalog/src/utils/build-config.ts:707-731 | once the loop succeeds, the records are `TypesProcessed`'s and the creation order is `CreationOrder`, the names in the order the steps created them; passes exactly when that loop and then `AliasTable` over those records in that order succeed; a failed loop is the result; on success every type with an AST node is resolved and the table is sound and holds every bare alias |
| BuildConfig.StoreAliasMap | packages/catalog/src/utils/build-config.ts:726-727 | passes exactly when `AliasTable` over the records succeeds, and then stores it; records and order unchanged |
| CreateShipment.CheckNotCancelled | packages/core/core-flows/src/order/workflows/create-shipment.ts:18-25 | fails exactly when the status is canceled, naming the order |
| CreateShipment.Difference | packages/core/core-flows/src/order/workflows/create-shipment.ts:36 | exactly the ids of the first list missing from the second, each once |
| CreateShipment.CheckItemsInOrder | packages/core/core-flows/src/order/workflows/create-shipment.ts:27-46 | passes exactly when every input id is an item id of the order; the error lists each missing id once, and only those |
| CreateShipment.NoItemsNoneExist | packages/core/core-flows/src/order/workflows/create-shipment.ts:34 | an order without items passes the items check only for an empty input |
| CreateShipment.FindFulfillment | packages/core/core-flows/src/order/workflows/create-shipment.ts:63-65 | the first fulfillment with the id; none exactly when none has it |
| CreateShipment.ValidateOrder | packages/core/core-flows/src/order/workflows/create-shipment.ts:57-70 | passes exactly when the order is not cancelled, holds every input item and has the fulfillment; the cancelled error comes first, then the items error, then fulfillment-not-found |
| CreateShipment.PrepareRegisterShipmentData | packages/core/core-flows/src/order/workflows/create-shipment.ts:74-97 | order id, the fulfillment module as reference, the fulfillment id as reference id and the author, with the order's items cut to id and quantity, same length and order; a missing fulfillment or absent items are type errors, the fulfillment first |
| CreateShipment.PrepareIgnoresInputItems | packages/core/core-flows/src/order/workflows/create-shipment.ts:90-95 | the items come from the order: inputs differing only in items give the same record |
| CreateShipment.ValidatedOrderPrepares | packages/core/core-flows/src/order/workflows/create-shipment.ts:57-97 | after validation of an order with items, preparation succeeds and carries every input item's id |

## Left out

- GraphQL compilation. `makeSchemaExecutable`, `cleanGraphQLSchema` and the directive definition prepended to the schema are not modelled. The compiled type map is an input: a sequence of declarations in iteration order, each with its AST kind, directives and fields.
- `getFieldsAndRelations` from the modules SDK is not part of this model. Its result for each type is the input field `projection`.
- The module registry `MedusaModule.getAllJoinerConfigs()` is a parameter. A module's schema is given as its compiled type map.
- Error messages are not modelled. Each thrown error is an error kind carrying the names the message interpolates. This includes the JavaScript type errors of reading through `null` or `undefined`.
- Case folding in `toLowerCase` covers the ASCII letters only.
- AliasMap.AliasPaths: the walk is bounded by fuel, the number of records plus one; exhausting it is the error `UnboundedAliasPath`. A walk that deep passes some record twice on its call stack, and a call's course depends only on the record it starts from, so the source then recurses until the JavaScript stack overflows. That argument is not proved here: the model does not state that a cycle gives the error, nor that an acyclic graph never does.
- LinkResolver.Search: the same bound, the number of types plus one, gives `UnboundedSearch`, for the same reason and with the same gap.
- LinkResolver.Search: the count the source checks is of hits before each call stops, not of all paths: a type that encloses the entity and is the target ends that call, so later enclosing types are not searched. The model counts the same way.
- Type names in a type map are assumed unique, as GraphQL requires.
- Object key order is modelled as insertion order (`order`). JavaScript orders integer-like keys first, and entity names are not integer-like.
- The workflow plumbing of `create-shipment.ts` (`createWorkflow`, `createStep`, `transform`, the remote query, the fulfillment sub-workflow and the registration step) is left out, lines 99-140.
- `arrayDifference` is not part of this model. `Difference` treats it as the set difference of the ids, each once, in first-occurrence order.
- The value of `Modules.FULFILLMENT` is not part of this model. It is the constant `FulfillmentModule`, `"fulfillment"`.
- The commented-out older `retrieveLinkModuleAndAlias`, lines 302-333, is dead code and not modelled.
- GraphSteps.Lookups: the module lookups of the intermediate entities are computed up front from the registry. This is the same, because a lookup reads only the registry.
- EntityGraph.ObjectRepresentation.Valid: `order` lists exactly the records, but the invariant does not say its entries are distinct. For a finished build, `CreationOrderLists` proves that they are.
- EntityGraph.ObjectRepresentation.ProcessEntity: after a failure, only the error is stated, not the records; the source throws there and leaves the records it had already updated.
- EntityGraph.ObjectRepresentation.ProcessEntity: the creation order after a failure is not stated; the build stops there and never reads it.
- EntityGraph.ObjectRepresentation.AttachParent: a parent whose module is not yet resolved is the error `UnresolvedParent`. This is the type error the source raises there.
- BuildConfig.BuildSchemaObjectRepresentation: does not state that types without an AST node get no record. Such a type can still get a record as a link or intermediate entity. `NoAstNodeTypeIgnored` states what holds: such a type changes nothing.
- The order statuses are an enumeration rather than the string constants of the utilities package; only `Canceled` matters to the checks.
