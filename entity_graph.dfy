/** The schema object representation: the entity records, kept in the order they were
    first created, and the alias-path table. `processEntity` is a method that updates the
    records in place, step by step, and each step is proved against its function in
    `GraphSteps`. */
module EntityGraph {
  import opened Wrappers
  import opened Schema
  import opened JoinerConfig
  import opened CatalogErrors
  import opened ModuleResolver
  import opened LinkResolver
  import opened Representation
  import opened GraphSteps
  import opened Creation

  /** `order` lists exactly the names in `keys`. */
  ghost predicate Listing(order: seq<string>, keys: set<string>)
  {
    && (forall i :: 0 <= i < |order| ==> order[i] in keys)
    && (forall n :: n in keys ==> n in order)
  }

  class ObjectRepresentation {
    /** The entity records; a parent link names the record it points at. */
    var entities: Arena
    /** The entity names in creation order, the order the records are visited in. */
    var order: seq<string>
    /** The alias-path table, filled once the records are complete. */
    var schemaPropertiesMap: map<string, PathEntry>

    /** The records have no dangling links and are stored under their own names, and
        `order` lists exactly the entities. */
    ghost predicate Valid()
      reads this
    {
      Sound(entities) && Listing(order, entities.Keys)
    }

    constructor ()
      ensures Valid()
      ensures entities == map[] && order == [] && schemaPropertiesMap == map[]
    {
      entities := map[];
      order := [];
      schemaPropertiesMap := map[];
    }

    /** The record for `name`, created empty on first access. */
    method GetObjectRepresentationRef(name: string)
      requires Valid()
      modifies this
      ensures Valid()
      ensures entities == GetOrInsert(old(entities), name)
      ensures order == if name in old(entities) then old(order) else old(order) + [name]
      ensures entities.Keys == old(entities).Keys + {name}
      ensures order == old(order) + Inserted(old(entities).Keys, name)
      ensures schemaPropertiesMap == old(schemaPropertiesMap)
    {
      GetOrInsertKeeps(entities, name);
      if name !in entities {
        entities := entities[name := FreshRep(name)];
        order := order + [name];
      }
    }

    /** The custom directives of the type, applied to its record. */
    method SetCustomDirectives(name: string, directives: seq<DirectiveNode>) returns (r: Outcome<BuildError>)
      requires Valid() && name in entities
      modifies this
      ensures Valid()
      ensures order == old(order) && schemaPropertiesMap == old(schemaPropertiesMap)
      ensures r.Pass? <==> ApplyDirectives(old(entities)[name], directives, CustomDirectives).Ok?
      ensures r.Pass? ==> entities == old(entities)[name := ApplyDirectives(old(entities)[name], directives, CustomDirectives).value]
      ensures r.Fail? ==> r.error == ApplyDirectives(old(entities)[name], directives, CustomDirectives).error
      ensures r.Fail? ==> entities == old(entities)
    {
      ghost var start := entities[name];
      var rep := entities[name];
      var i := 0;
      while i < |CustomDirectives|
        invariant 0 <= i <= |CustomDirectives|
        invariant ApplyDirectives(start, directives, CustomDirectives)
               == ApplyDirectives(rep, directives, CustomDirectives[i..])
        invariant rep.(listeners := start.listeners) == start
      {
        var cd := CustomDirectives[i];
        var found := FindDirective(directives, cd.name);
        if found.None? {
          if cd.isRequired {
            return Fail(MissingRequiredDirective(rep.entity, cd.directive));
          }
          break;
        }
        var directive := directives[found.value];
        if |directive.arguments| == 0 {
          return Fail(DirectiveWithoutArgument(rep.entity, cd.directive));
        }
        rep := SetProperty(rep, cd.property, ArgumentStrings(directive.arguments[0]));
        i := i + 1;
      }
      entities := entities[name := rep];
      PutRecord(old(entities), name, rep);
      return Pass;
    }
 
    /** A parent of the same service, or a link-module parent: a direct list or object
        link to it, and its id path added to the child's fields. */
    method AttachSameModuleParent(child: string, parent: string, targetProp: string, isList: bool)
      requires Valid() && child in entities && parent in entities
      modifies this
      ensures Valid() && Grows(old(entities), entities)
      ensures order == old(order) && schemaPropertiesMap == old(schemaPropertiesMap)
      ensures entities == ParentAttached(old(entities), child, parent, targetProp, isList)
    {
      ParentAttachedKeeps(entities, child, parent, targetProp, isList);
      var c := entities[child];
      c := c.(parents := c.parents + [ParentLink(parent, targetProp, Some(isList), None)]);
      entities := entities[child := c];
      c := c.(fields := c.fields + [entities[parent].alias + ".id"]);
      entities := entities[child := c];
    }

    /** The link node's own configuration, on its record. */
    method ConfigureLinkNode(meta: LinkMetadata, parent: string, parentService: string, childService: string)
      requires Valid() && meta.entityName in entities && parent in entities
      modifies this
      ensures Valid() && Grows(old(entities), entities)
      ensures order == old(order) && schemaPropertiesMap == old(schemaPropertiesMap)
      ensures entities == LinkNodeSet(old(entities), meta, parent, parentService, childService)
      ensures entities.Keys == old(entities).Keys
    {
      LinkNodeSetKeeps(entities, meta, parent, parentService, childService);
      var link := meta.entityName;
      var rec := entities[link];
      rec := rec.(parents := [ParentLink(parent, meta.alias, None, None)]);
      rec := rec.(alias := meta.alias);
      rec := rec.(listeners := [link + ".attached", link + ".detached"]);
      rec := rec.(moduleConfig := Some(meta.linkModule));
      entities := entities[link := rec];
      var keys := RelationshipKeys(meta.linkModule.relationships, parentService, childService);
      rec := rec.(fields := keys + [entities[parent].alias + ".id"]);
      entities := entities[link := rec];
    }

    /** The record of intermediate `names[i]`, configured under the record above it. */
    method SetIntermediate(link: string, names: seq<string>, i: nat, own: Ownership)
      requires Valid() && link in entities && i < |names| && ChainParent(link, names, i) in entities
      modifies this
      ensures Valid() && Grows(old(entities), entities) && names[i] in entities
      ensures schemaPropertiesMap == old(schemaPropertiesMap)
      ensures entities == Intermediate(old(entities), link, names, i, own)
      ensures order == old(order) + Inserted(old(entities).Keys, names[i])
    {
      var name := names[i];
      var parentRef := if i == |names| - 1 then link else names[i + 1];
      GetObjectRepresentationRef(name);
      ghost var created := entities;
      var rec := entities[name].(
        parents := entities[name].parents + [ParentLink(parentRef, own.alias, Some(true), None)],
        alias := own.alias,
        listeners := [name + ".created", name + ".updated"],
        moduleConfig := Some(own.owner));
      entities := entities[name := rec];
      entities := entities[name := rec.(fields := ["id", entities[link].alias + ".id"])];
      assert entities == Intermediate(old(entities), link, names, i, own);
      assert entities.Keys == created.Keys;
      IntermediateKeepsInvariants(old(entities), link, names, i, own);
    }

    /** Intermediate `names[i - 1]` once its lookup gave `own`: configured on success,
        the failure passed on otherwise. */
    method ChainStepAt(link: string, names: seq<string>, i: nat, own: Result<Ownership, BuildError>,
                       ghost lookups: seq<Result<Ownership, BuildError>>)
      returns (r: Outcome<BuildError>)
      requires |lookups| == |names| && 0 < i <= |names| && lookups[i - 1] == own
      requires Valid() && link in entities && (i < |names| ==> names[i] in entities)
      modifies this
      ensures Valid() && Grows(old(entities), entities)
      ensures schemaPropertiesMap == old(schemaPropertiesMap)
      ensures r.Fail? ==> ChainFrom(old(entities), link, names, lookups, i) == Err(r.error)
      ensures r.Pass? ==> names[i - 1] in entities
      ensures r.Pass? ==> ChainFrom(old(entities), link, names, lookups, i)
                          == ChainFrom(entities, link, names, lookups, i - 1)
      ensures r.Pass? ==> entities.Keys == old(entities).Keys + {names[i - 1]}
      ensures r.Pass? ==> order == old(order) + Inserted(old(entities).Keys, names[i - 1])
    {
      if own.Err? {
        ChainFromFails(entities, link, names, lookups, i, own.error);
        return Fail(own.error);
      }
      ChainFromStep(entities, link, names, lookups, i, own.value);
      ghost var n0 := entities;
      SetIntermediate(link, names, i - 1, own.value);
      IntermediateKeepsInvariants(n0, link, names, i - 1, own.value);
      return Pass;
    }

    /** The intermediate entities, from the last one (under the link) down to the first,
        each looked up in the registry just before its record is configured. */
    method ChainIntermediates(link: string, names: seq<string>, configs: seq<ModuleConfig>)
      returns (r: Outcome<BuildError>)
      requires Valid() && link in entities
      modifies this
      ensures Valid() && Grows(old(entities), entities)
      ensures schemaPropertiesMap == old(schemaPropertiesMap)
      ensures r.Pass? <==> ChainFrom(old(entities), link, names, Lookups(names, configs), |names|).Ok?
      ensures r.Pass? ==> entities == ChainFrom(old(entities), link, names, Lookups(names, configs), |names|).value
      ensures r.Fail? ==> r.error == ChainFrom(old(entities), link, names, Lookups(names, configs), |names|).error
      ensures r.Pass? ==> order == old(order) + ChainCreated(old(entities).Keys, names, |names|)
    {
      ghost var lookups := Lookups(names, configs);
      ghost var outcome := ChainFrom(entities, link, names, lookups, |names|);
      var i := |names|;
      while i > 0
        invariant 0 <= i <= |names|
        invariant Valid() && Grows(old(entities), entities) && link in entities
        invariant i < |names| ==> names[i] in entities
        invariant schemaPropertiesMap == old(schemaPropertiesMap)
        invariant outcome == ChainFrom(entities, link, names, lookups, i)
        invariant order + ChainCreated(entities.Keys, names, i)
                  == old(order) + ChainCreated(old(entities).Keys, names, |names|)
      {
        var own := RetrieveModuleAndAlias(names[i - 1], configs);
        ghost var before := order;
        ghost var known := entities.Keys;
        r := ChainStepAt(link, names, i, own, lookups);
        if r.Fail? {
          return;
        }
        ChainCreatedStep(before, known, names, i);
        i := i - 1;
      }
      assert order + ChainCreated(entities.Keys, names, 0) == order;
      return Pass;
    }

    /** The child's parent link through `outer`, with the schema parent beside it. */
    method AttachToChild(child: string, outer: string, parent: string, targetProp: string, isList: bool)
      requires Valid() && child in entities && outer in entities && parent in entities
      modifies this
      ensures Valid() && Grows(old(entities), entities)
      ensures order == old(order) && schemaPropertiesMap == old(schemaPropertiesMap)
      ensures entities == ChildAttached(old(entities), child, outer, parent, targetProp, isList)
    {
      ChildAttachedKeeps(entities, child, outer, parent, targetProp, isList);
      var c := entities[child];
      c := c.(parents := c.parents + [ParentLink(outer, targetProp, Some(isList), Some(parent))]);
      entities := entities[child := c];
      c := c.(fields := c.fields + [entities[outer].alias + ".id"]);
      entities := entities[child := c];
    }

    /** One link module between a schema parent and the child: the link node, the
        intermediate chain, and the child's link. */
    method AttachViaLink(child: string, parent: string, meta: LinkMetadata,
                         parentService: string, childService: string,
                         targetProp: string, isList: bool, configs: seq<ModuleConfig>)
      returns (r: Outcome<BuildError>)
      requires Valid() && child in entities && parent in entities
      modifies this
      ensures Valid() && Grows(old(entities), entities)
      ensures schemaPropertiesMap == old(schemaPropertiesMap)
      ensures r.Pass? <==> LinkAttached(old(entities), child, parent, meta, parentService, childService,
                                         targetProp, isList, Lookups(meta.intermediateEntityNames, configs)).Ok?
      ensures r.Pass? ==> entities == LinkAttached(old(entities), child, parent, meta, parentService, childService,
                                                   targetProp, isList, Lookups(meta.intermediateEntityNames, configs)).value
      ensures r.Fail? ==> r.error == LinkAttached(old(entities), child, parent, meta, parentService, childService,
                                                  targetProp, isList, Lookups(meta.intermediateEntityNames, configs)).error
      ensures r.Pass? ==> order == old(order) + LinkCreated(old(entities).Keys, meta)
    {
      ghost var start := entities;
      ghost var before := order;
      GetObjectRepresentationRef(meta.entityName);
      ghost var n0 := entities;
      ConfigureLinkNode(meta, parent, parentService, childService);
      ghost var n1 := entities;
      GrowsTransitive(start, n0, n1);
      r := ChainIntermediates(meta.entityName, meta.intermediateEntityNames, configs);
      GrowsTransitive(start, n1, entities);
      ghost var chain := ChainFrom(n1, meta.entityName, meta.intermediateEntityNames,
                                   Lookups(meta.intermediateEntityNames, configs), |meta.intermediateEntityNames|);
      if r.Fail? {
        assert LinkAttached(start, child, parent, meta, parentService, childService, targetProp, isList,
                          Lookups(meta.intermediateEntityNames, configs))
            == Err(chain.error);
        return;
      }
      ghost var n2 := entities;
      var outer := if |meta.intermediateEntityNames| > 0 then meta.intermediateEntityNames[0] else meta.entityName;
      AttachToChild(child, outer, parent, targetProp, isList);
      GrowsTransitive(start, n2, entities);
      LinkCreatedSplit(before, start.Keys, meta);
      assert LinkAttached(start, child, parent, meta, parentService, childService, targetProp, isList,
                          Lookups(meta.intermediateEntityNames, configs))
          == Ok(entities);
    }

    /** Every link module in turn, in the order the lookup returned them; the first
        failure ends the pass. */
    method AttachViaLinks(child: string, parent: string, metas: seq<LinkMetadata>,
                          parentService: string, childService: string,
                          targetProp: string, isList: bool, configs: seq<ModuleConfig>)
      returns (r: Outcome<BuildError>)
      requires Valid() && child in entities && parent in entities
      modifies this
      ensures Valid() && Grows(old(entities), entities)
      ensures schemaPropertiesMap == old(schemaPropertiesMap)
      ensures r.Pass? <==> LinksAttached(old(entities), child, parent, metas, parentService, childService,
                                          targetProp, isList, configs).Ok?
      ensures r.Pass? ==> entities == LinksAttached(old(entities), child, parent, metas, parentService, childService,
                                                    targetProp, isList, configs).value
      ensures r.Fail? ==> r.error == LinksAttached(old(entities), child, parent, metas, parentService, childService,
                                                   targetProp, isList, configs).error
      ensures r.Pass? ==> order == old(order) + LinksCreated(old(entities), child, parent, metas, parentService,
                                                             childService, targetProp, isList, configs)
    {
      ghost var outcome := LinksAttached(entities, child, parent, metas, parentService, childService,
                                         targetProp, isList, configs);
      var k := 0;
      while k < |metas|
        invariant 0 <= k <= |metas|
        invariant Valid() && Grows(old(entities), entities) && child in entities && parent in entities
        invariant schemaPropertiesMap == old(schemaPropertiesMap)
        invariant outcome == LinksAttached(entities, child, parent, metas[k..], parentService, childService,
                                           targetProp, isList, configs)
        invariant order + LinksCreated(entities, child, parent, metas[k..], parentService, childService,
                                       targetProp, isList, configs)
                  == old(order) + LinksCreated(old(entities), child, parent, metas, parentService, childService,
                                               targetProp, isList, configs)
      {
        ghost var before := entities;
        ghost var ordered := order;
        assert metas[k..][0] == metas[k] && metas[k..][1..] == metas[k + 1..];
        r := AttachViaLink(child, parent, metas[k], parentService, childService, targetProp, isList, configs);
        GrowsTransitive(old(entities), before, entities);
        if r.Fail? {
          return;
        }
        AppendAssociates(ordered, LinkCreated(before.Keys, metas[k]),
                         LinksCreated(entities, child, parent, metas[k + 1..], parentService, childService,
                                      targetProp, isList, configs));
        k := k + 1;
      }
      assert metas[k..] == [];
      assert order + [] == order;
      return Pass;
    }

    /** The entity's own record: created if missing, its custom directives applied and its
        projected fields stored. */
    method SetUpRecord(decl: TypeDecl) returns (r: Outcome<BuildError>)
      requires Valid()
      modifies this
      ensures Valid() && Grows(old(entities), entities) && decl.name in entities
      ensures schemaPropertiesMap == old(schemaPropertiesMap)
      ensures r.Pass? <==> RecordSetUp(old(entities), decl).Ok?
      ensures r.Pass? ==> entities == RecordSetUp(old(entities), decl).value
      ensures r.Fail? ==> r.error == RecordSetUp(old(entities), decl).error
      ensures order == old(order) + Inserted(old(entities).Keys, decl.name)
    {
      GetObjectRepresentationRef(decl.name);
      r := SetCustomDirectives(decl.name, decl.directives);
      if r.Fail? {
        return;
      }
      entities := entities[decl.name := entities[decl.name].(fields := decl.projection)];
      assert entities == RecordSetUp(old(entities), decl).value;
      RecordSetUpKeeps(old(entities), decl);
    }

    /** The entity's own record, then its owning module and alias. The lookup's result is
        passed back for the parents that follow. */
    method SetUpEntity(decl: TypeDecl, configs: seq<ModuleConfig>) returns (r: Result<Ownership, BuildError>)
      requires Valid()
      modifies this
      ensures Valid() && Grows(old(entities), entities) && decl.name in entities
      ensures schemaPropertiesMap == old(schemaPropertiesMap)
      ensures r.Ok? <==> EntitySetUp(old(entities), decl, configs).Ok?
      ensures r.Ok? ==> entities == EntitySetUp(old(entities), decl, configs).value
      ensures r.Ok? ==> ModuleAndAlias(decl.name, configs) == Ok(r.value)
      ensures r.Ok? ==> entities[decl.name].moduleConfig == Some(r.value.owner)
      ensures r.Err? ==> r.error == EntitySetUp(old(entities), decl, configs).error
      ensures order == old(order) + Inserted(old(entities).Keys, decl.name)
    {
      var d := SetUpRecord(decl);
      if d.Fail? {
        return Err(d.error);
      }
      r := RetrieveModuleAndAlias(decl.name, configs);
      if r.Err? {
        return;
      }
      ghost var n1 := entities;
      RecordResolvedKeeps(n1, decl.name, r.value);
      entities := entities[decl.name := entities[decl.name].(moduleConfig := Some(r.value.owner), alias := r.value.alias)];
      assert entities == RecordResolved(n1, decl.name, r.value);
      GrowsTransitive(old(entities), n1, entities);
    }

    /** A schema parent in another service: the link modules that join the two are looked
        up, then each is attached. `links` is what the lookup returned, or `[]` when it failed. */
    method AttachAcrossModules(child: string, childModule: ModuleConfig, parent: string, parentModule: ModuleConfig,
                               targetProp: string, isList: bool, configs: seq<ModuleConfig>)
      returns (r: Outcome<BuildError>, links: seq<LinkMetadata>)
      requires Valid() && child in entities && parent in entities
      modifies this
      ensures Valid() && Grows(old(entities), entities)
      ensures schemaPropertiesMap == old(schemaPropertiesMap)
      ensures var found := LinkLookup(old(entities)[parent].entity, parentModule, old(entities)[child].entity,
                                      childModule, configs);
              && (found.Err? <==> links == [])
              && (found.Err? ==> r == Fail(found.error) && entities == old(entities) && order == old(order))
              && (found.Ok? ==> links == found.value)
      ensures links != [] ==>
                && (r.Pass? <==> LinksAttached(old(entities), child, parent, links, parentModule.serviceName,
                                               childModule.serviceName, targetProp, isList, configs).Ok?)
                && (r.Pass? ==> entities == LinksAttached(old(entities), child, parent, links, parentModule.serviceName,
                                                          childModule.serviceName, targetProp, isList, configs).value)
                && (r.Fail? ==> r.error == LinksAttached(old(entities), child, parent, links, parentModule.serviceName,
                                                         childModule.serviceName, targetProp, isList, configs).error)
                && (r.Pass? ==> order == old(order) + LinksCreated(old(entities), child, parent, links,
                                                                   parentModule.serviceName, childModule.serviceName,
                                                                   targetProp, isList, configs))
    {
      var found := RetrieveLinkModuleAndAlias(entities[parent].entity, parentModule,
                                              entities[child].entity, childModule, configs);
      if found.Err? {
        return Fail(found.error), [];
      }
      links := found.value;
      r := AttachViaLinks(child, parent, links, parentModule.serviceName, childModule.serviceName,
                          targetProp, isList, configs);
    }

    /** One schema parent of `child`: the field that holds the child, the parent's record,
        and then a direct link when the two share a service or the parent is a link module,
        the link modules between them otherwise. A parent not processed yet has no module,
        and reading its service fails. `links` is what the lookup returned, or `[]` when
        no lookup was made or it failed. */
    method AttachParent(child: string, childModule: ModuleConfig, parentDecl: TypeDecl, configs: seq<ModuleConfig>)
      returns (r: Outcome<BuildError>, links: seq<LinkMetadata>)
      requires Valid() && child in entities && entities[child].moduleConfig.Some? && HasFieldOf(parentDecl, child)
      modifies this
      ensures Valid() && Grows(old(entities), entities) && parentDecl.name in entities
      ensures schemaPropertiesMap == old(schemaPropertiesMap)
      ensures r.Pass? <==> ParentStep(old(entities), child, childModule, parentDecl, configs).Ok?
      ensures r.Pass? ==> entities == ParentStep(old(entities), child, childModule, parentDecl, configs).value
      ensures r.Fail? ==> r.error == ParentStep(old(entities), child, childModule, parentDecl, configs).error
      ensures r.Pass? ==> order == old(order) + ParentCreated(old(entities), child, childModule, parentDecl, configs)
      ensures var n0 := GetOrInsert(old(entities), parentDecl.name);
              n0[parentDecl.name].moduleConfig.None? ==>
                r == Fail(UnresolvedParent(child, parentDecl.name)) && links == [] && entities == n0
      ensures var n0 := GetOrInsert(old(entities), parentDecl.name);
              && n0[parentDecl.name].moduleConfig.Some?
              && SameModule(n0[child].moduleConfig.value, n0[parentDecl.name].moduleConfig.value) ==>
                r.Pass? && links == []
      ensures var n0 := GetOrInsert(old(entities), parentDecl.name);
              && n0[parentDecl.name].moduleConfig.Some?
              && !SameModule(n0[child].moduleConfig.value, n0[parentDecl.name].moduleConfig.value) ==>
                var found := LinkLookup(n0[parentDecl.name].entity, n0[parentDecl.name].moduleConfig.value,
                                        n0[child].entity, childModule, configs);
                && (found.Err? ==> r == Fail(found.error) && links == [] && entities == n0)
                && (found.Ok? ==> links == found.value && links != [])
    {
      var parent := parentDecl.name;
      var field := ParentField(parentDecl, child);
      var isList := field.ty.ListOf?;
      GetObjectRepresentationRef(parent);
      ghost var n0 := entities;
      ghost var inserted := order;
      var parentModule := entities[parent].moduleConfig;
      if parentModule.None? {
        return Fail(UnresolvedParent(child, parent)), [];
      }
      if SameModule(entities[child].moduleConfig.value, parentModule.value) {
        ParentStepDirect(old(entities), child, childModule, parentDecl, configs);
        AttachSameModuleParent(child, parent, field.name, isList);
        GrowsTransitive(old(entities), n0, entities);
        assert inserted + [] == inserted;
        return Pass, [];
      }
      ParentStepAcross(old(entities), child, childModule, parentDecl, configs);
      r, links := AttachAcrossModules(child, childModule, parent, parentModule.value, field.name, isList, configs);
      GrowsTransitive(old(entities), n0, entities);
      if r.Pass? {
        AppendAssociates(old(order), Inserted(old(entities).Keys, parent),
                         LinksCreated(n0, child, parent, links, parentModule.value.serviceName,
                                      childModule.serviceName, field.name, isList, configs));
      }
    }

    /** Each schema parent in turn; the first failure ends the pass. */
    method AttachParents(child: string, childModule: ModuleConfig, parents: seq<TypeDecl>, configs: seq<ModuleConfig>)
      returns (r: Outcome<BuildError>)
      requires Valid() && child in entities && entities[child].moduleConfig.Some?
      requires forall d :: d in parents ==> HasFieldOf(d, child)
      modifies this
      ensures Valid() && Grows(old(entities), entities)
      ensures schemaPropertiesMap == old(schemaPropertiesMap)
      ensures r.Pass? <==> ParentsAttached(old(entities), child, childModule, parents, configs).Ok?
      ensures r.Pass? ==> entities == ParentsAttached(old(entities), child, childModule, parents, configs).value
      ensures r.Fail? ==> r.error == ParentsAttached(old(entities), child, childModule, parents, configs).error
      ensures r.Pass? ==> order == old(order) + ParentsCreated(old(entities), child, childModule, parents, configs)
    {
      ghost var outcome := ParentsAttached(entities, child, childModule, parents, configs);
      var k := 0;
      while k < |parents|
        invariant 0 <= k <= |parents|
        invariant Valid() && Grows(old(entities), entities)
        invariant child in entities && entities[child].moduleConfig.Some?
        invariant schemaPropertiesMap == old(schemaPropertiesMap)
        invariant outcome == ParentsAttached(entities, child, childModule, parents[k..], configs)
        invariant order + ParentsCreated(entities, child, childModule, parents[k..], configs)
                  == old(order) + ParentsCreated(old(entities), child, childModule, parents, configs)
      {
        ghost var before := entities;
        ghost var ordered := order;
        assert parents[k..][0] == parents[k] && parents[k..][1..] == parents[k + 1..];
        assert parents[k] in parents;
        var links;
        r, links := AttachParent(child, childModule, parents[k], configs);
        GrowsTransitive(old(entities), before, entities);
        if r.Fail? {
          return;
        }
        AppendAssociates(ordered, ParentCreated(before, child, childModule, parents[k], configs),
                         ParentsCreated(entities, child, childModule, parents[k + 1..], configs));
        k := k + 1;
      }
      assert parents[k..] == [];
      assert order + [] == order;
      return Pass;
    }

    /** `processEntity`: the entity's own record, then each of its schema parents in
        type-map order. */
    method ProcessEntity(decl: TypeDecl, types: TypeMap, configs: seq<ModuleConfig>) returns (r: Outcome<BuildError>)
      requires Valid()
      modifies this
      ensures Valid() && Grows(old(entities), entities) && decl.name in entities
      ensures schemaPropertiesMap == old(schemaPropertiesMap)
      ensures r.Pass? <==> EntityProcessed(old(entities), decl, types, configs).Ok?
      ensures r.Pass? ==> entities == EntityProcessed(old(entities), decl, types, configs).value
      ensures r.Fail? ==> r.error == EntityProcessed(old(entities), decl, types, configs).error
      ensures r.Pass? ==> order == old(order) + EntityCreated(old(entities), decl, types, configs)
    {
      var own := SetUpEntity(decl, configs);
      if own.Err? {
        return Fail(own.error);
      }
      ghost var n1 := entities;
      r := AttachParents(decl.name, own.value.owner, SchemaParents(types, decl.name), configs);
      GrowsTransitive(old(entities), n1, entities);
      if r.Pass? {
        AppendAssociates(old(order), Inserted(old(entities).Keys, decl.name),
                         ParentsCreated(n1, decl.name, own.value.owner, SchemaParents(types, decl.name), configs));
      }
    }
  }
}
