/** Finding the link modules that join a parent entity of one module to a child entity of
    another, with the intermediate entities of the child's module on the way
    (build-config.ts, retrieveLinkModuleAndAlias and its inner search). */
module LinkResolver {
  import opened Wrappers
  import opened Text
  import opened Schema
  import opened JoinerConfig
  import opened AliasLookup
  import opened CatalogErrors

  /** One link module joining the two entities: the link entity, its alias, the module,
      and the intermediate entities between the link and the child entity. */
  datatype LinkMetadata = LinkMetadata(
    entityName: string,
    alias: string,
    linkModule: ModuleConfig,
    intermediateEntityNames: seq<string>)

  /** What one call of the search leaves behind: whether the call itself reached the
      intermediate, the running count of hits, and the intermediates recorded so far. */
  datatype SearchState = SearchState(hit: bool, found: nat, path: seq<string>)

  /** An object type definition with a field whose type wraps `entityName`. */
  predicate Encloses(d: TypeDecl, entityName: string)
  {
    d.kind == ObjectTypeDefinition && HasFieldOf(d, entityName)
  }

  /** The type named `parent` is an object type with a field wrapping `entityName`. */
  predicate DirectChildOf(types: TypeMap, parent: string, entityName: string)
  {
    exists i :: 0 <= i < |types| && types[i].name == parent && Encloses(types[i], entityName)
  }

  /** Every name is a type other than `target` that `target` has a field of. */
  predicate ChildrenOfTarget(types: TypeMap, target: Option<string>, names: seq<string>)
  {
    forall j :: 0 <= j < |names| ==> ChildOfTarget(types, target, names[j])
  }

  /** `name` is a type other than `target` that `target` has a field of. */
  predicate ChildOfTarget(types: TypeMap, target: Option<string>, name: string)
  {
    target.Some? && name != target.value && DirectChildOf(types, target.value, name)
  }

  lemma ChildrenOfTargetAppend(types: TypeMap, target: Option<string>, a: seq<string>, b: seq<string>)
    requires ChildrenOfTarget(types, target, a) && ChildrenOfTarget(types, target, b)
    ensures ChildrenOfTarget(types, target, a + b)
  {
    var c := a + b;
    forall j | 0 <= j < |c|
      ensures ChildOfTarget(types, target, c[j])
    {
      if j < |a| {
        assert c[j] == a[j];
      } else {
        assert c[j] == b[j - |a|];
      }
    }
  }

  /** The search, as a value: `Search` is one call of the recursive search from
      `entityName`, `SearchFrom` the rest of its loop from type `i` on, with the counter
      and the recorded intermediates carried in `f` and `p`. Every enclosing type is either
      the target, which counts a hit and ends the call, or is searched in turn and recorded
      when that call itself hit. `fuel` bounds the depth of the recursion. */
  function Search(types: TypeMap, target: Option<string>, entityName: string,
                  fuel: nat, found: nat, path: seq<string>): (r: Result<SearchState, BuildError>)
    decreases fuel, 1
    ensures r.Err? ==> r.error.UnboundedSearch?
    ensures r.Ok? ==> Continues(found, path, r.value)
    ensures r.Ok? && r.value.hit ==> target.Some? && DirectChildOf(types, target.value, entityName)
    ensures r.Ok? ==> ChildrenOfTarget(types, target, r.value.path[|path|..])
  {
    if fuel == 0 then Err(UnboundedSearch(entityName))
    else SearchFrom(types, target, entityName, fuel, 0, found, path)
  }

  function SearchFrom(types: TypeMap, target: Option<string>, entityName: string,
                      fuel: nat, i: nat, f: nat, p: seq<string>): (r: Result<SearchState, BuildError>)
    requires fuel > 0 && i <= |types|
    decreases fuel, 0, |types| - i
    ensures r.Err? ==> r.error.UnboundedSearch?
    ensures r.Ok? ==> Continues(f, p, r.value)
    ensures r.Ok? && r.value.hit ==> target.Some? && DirectChildOf(types, target.value, entityName)
    ensures r.Ok? ==> ChildrenOfTarget(types, target, r.value.path[|p|..])
  {
    if i == |types| then Ok(SearchState(false, f, p))
    else if !Encloses(types[i], entityName) then SearchFrom(types, target, entityName, fuel, i + 1, f, p)
    else if Some(types[i].name) == target then Ok(SearchState(true, f + 1, p))
    else
      match Search(types, target, types[i].name, fuel - 1, f, p)
      case Err(e) => Err(e)
      case Ok(sub) =>
        var q := if sub.hit then sub.path + [types[i].name] else sub.path;
        ChildOfTargetAfterHit(types, target, types[i].name, f, p, sub);
        var r := SearchFrom(types, target, entityName, fuel, i + 1, sub.found, q);
        assert r.Ok? ==> Continues(f, p, r.value) && ChildrenOfTarget(types, target, r.value.path[|p|..]) by {
          if r.Ok? {
            ContinuesTrans(types, target, f, p, sub.found, q, r.value);
          }
        }
        r
  }

  /** A result that continues the running state: the recorded intermediates extend `path`,
      and the counter has grown by the intermediates recorded plus one for a hit. */
  predicate Continues(found: nat, path: seq<string>, s: SearchState)
  {
    && |path| <= |s.path| && s.path[..|path|] == path
    && found <= s.found
    && s.found - found == |s.path| - |path| + (if s.hit then 1 else 0)
  }

  /** A nested call that hit records the type it was called for, which is then a child of
      the target; one that did not hit records nothing more. */
  lemma ChildOfTargetAfterHit(types: TypeMap, target: Option<string>, name: string,
                              f: nat, p: seq<string>, sub: SearchState)
    requires Continues(f, p, sub) && ChildrenOfTarget(types, target, sub.path[|p|..])
    requires sub.hit ==> ChildOfTarget(types, target, name)
    ensures var q := if sub.hit then sub.path + [name] else sub.path;
            && |p| <= |q| && q[..|p|] == p && f <= sub.found && sub.found - f == |q| - |p|
            && ChildrenOfTarget(types, target, q[|p|..])
  {
    if sub.hit {
      var q := sub.path + [name];
      assert q[..|p|] == sub.path[..|p|];
      assert q[|p|..] == sub.path[|p|..] + [name];
      assert ChildrenOfTarget(types, target, [name]);
      ChildrenOfTargetAppend(types, target, sub.path[|p|..], [name]);
    }
  }

  lemma ContinuesTrans(types: TypeMap, target: Option<string>, f: nat, p: seq<string>, g: nat, q: seq<string>, s: SearchState)
    requires |p| <= |q| && q[..|p|] == p && f <= g && g - f == |q| - |p|
    requires ChildrenOfTarget(types, target, q[|p|..])
    requires Continues(g, q, s) && ChildrenOfTarget(types, target, s.path[|q|..])
    ensures Continues(f, p, s) && ChildrenOfTarget(types, target, s.path[|p|..])
  {
    assert s.path[..|p|] == s.path[..|q|][..|p|];
    assert s.path[|p|..] == q[|p|..] + s.path[|q|..];
    ChildrenOfTargetAppend(types, target, q[|p|..], s.path[|q|..]);
  }

  /** `isForeignEntityChildOfIntermediateEntity`: the recursive search for the intermediate
      entity above `entityName`, with the captured counter and list passed in and out. */
  method SearchIntermediate(types: TypeMap, target: Option<string>, entityName: string,
                            fuel: nat, found: nat, path: seq<string>)
    returns (r: Result<SearchState, BuildError>)
    decreases fuel
    ensures r == Search(types, target, entityName, fuel, found, path)
  {
    if fuel == 0 {
      return Err(UnboundedSearch(entityName));
    }
    var f, p, i := found, path, 0;
    while i < |types|
      invariant 0 <= i <= |types|
      invariant SearchFrom(types, target, entityName, fuel, i, f, p) == Search(types, target, entityName, fuel, found, path)
    {
      var entityType := types[i];
      if entityType.kind == ObjectTypeDefinition && HasFieldOf(entityType, entityName) {
        if Some(entityType.name) == target {
          return Ok(SearchState(true, f + 1, p));
        }
        var sub := SearchIntermediate(types, target, entityType.name, fuel - 1, f, p);
        if sub.Err? {
          return Err(sub.error);
        }
        f, p := sub.value.found, sub.value.path;
        if sub.value.hit {
          p := p + [entityType.name];
        }
      }
      i := i + 1;
    }
    return Ok(SearchState(false, f, p));
  }

  /** When no type encloses the entity, the search finds nothing and records nothing. */
  lemma {:induction false} SearchNoEncloser(types: TypeMap, target: Option<string>, entityName: string,
                                            fuel: nat, found: nat, path: seq<string>)
    requires fuel > 0 && forall i :: 0 <= i < |types| ==> !Encloses(types[i], entityName)
    ensures Search(types, target, entityName, fuel, found, path) == Ok(SearchState(false, found, path))
  {
    SearchFromNoEncloser(types, target, entityName, fuel, 0, found, path);
  }

  lemma {:induction false} SearchFromNoEncloser(types: TypeMap, target: Option<string>, entityName: string,
                                                fuel: nat, i: nat, found: nat, path: seq<string>)
    requires fuel > 0 && i <= |types| && forall j :: i <= j < |types| ==> !Encloses(types[j], entityName)
    ensures SearchFrom(types, target, entityName, fuel, i, found, path) == Ok(SearchState(false, found, path))
    decreases |types| - i
  {
    if i < |types| {
      SearchFromNoEncloser(types, target, entityName, fuel, i + 1, found, path);
    }
  }

  /** When the target is the first type that encloses the entity, the search counts one
      hit there and stops, whatever the later types hold. */
  lemma {:induction false} SearchTargetFirst(types: TypeMap, target: Option<string>, entityName: string,
                                             fuel: nat, k: nat, found: nat, path: seq<string>)
    requires fuel > 0 && k < |types| && Some(types[k].name) == target && Encloses(types[k], entityName)
    requires forall j :: 0 <= j < k ==> !Encloses(types[j], entityName)
    ensures Search(types, target, entityName, fuel, found, path) == Ok(SearchState(true, found + 1, path))
  {
    SearchFromTargetFirst(types, target, entityName, fuel, 0, k, found, path);
  }

  lemma {:induction false} SearchFromTargetFirst(types: TypeMap, target: Option<string>, entityName: string,
                                                 fuel: nat, i: nat, k: nat, found: nat, path: seq<string>)
    requires fuel > 0 && i <= k < |types| && Some(types[k].name) == target && Encloses(types[k], entityName)
    requires forall j :: i <= j < k ==> !Encloses(types[j], entityName)
    ensures SearchFrom(types, target, entityName, fuel, i, found, path) == Ok(SearchState(true, found + 1, path))
    decreases k - i
  {
    if i < k {
      SearchFromTargetFirst(types, target, entityName, fuel, i + 1, k, found, path);
    }
  }

  /** A link module whose two relationships name the primary and the foreign service. */
  predicate Joins(m: ModuleConfig, primaryService: string, foreignService: string)
  {
    m.isLink && |m.relationships| >= 2
    && m.relationships[0].serviceName == primaryService
    && m.relationships[1].serviceName == foreignService
  }

  /** The joining link modules, in registry order. */
  function Candidates(configs: seq<ModuleConfig>, primaryService: string, foreignService: string)
    : (r: seq<ModuleConfig>)
    ensures forall m :: m in r ==> m in configs && Joins(m, primaryService, foreignService)
  {
    if configs == [] then []
    else
      var last := configs[|configs| - 1];
      Candidates(configs[..|configs| - 1], primaryService, foreignService)
        + (if Joins(last, primaryService, foreignService) then [last] else [])
  }

  lemma {:induction false} CandidateIncluded(configs: seq<ModuleConfig>, i: nat, primaryService: string, foreignService: string)
    requires i < |configs| && Joins(configs[i], primaryService, foreignService)
    ensures configs[i] in Candidates(configs, primaryService, foreignService)
  {
    if i < |configs| - 1 {
      CandidateIncluded(configs[..|configs| - 1], i, primaryService, foreignService);
    }
  }

  /** The candidates keep the registry's order and multiplicity: over a registry made of
      two parts, they are the first part's followed by the second part's. */
  lemma {:induction false} CandidatesAppend(a: seq<ModuleConfig>, b: seq<ModuleConfig>,
                                            primaryService: string, foreignService: string)
    ensures Candidates(a + b, primaryService, foreignService)
            == Candidates(a, primaryService, foreignService) + Candidates(b, primaryService, foreignService)
  {
    if b == [] {
      assert a + b == a;
    } else {
      var last := b[|b| - 1];
      var tail := if Joins(last, primaryService, foreignService) then [last] else [];
      assert (a + b)[..|a + b| - 1] == a + b[..|b| - 1] && (a + b)[|a + b| - 1] == last;
      assert Candidates(a + b, primaryService, foreignService)
          == Candidates(a + b[..|b| - 1], primaryService, foreignService) + tail;
      CandidatesAppend(a, b[..|b| - 1], primaryService, foreignService);
      assert Candidates(b, primaryService, foreignService)
          == Candidates(b[..|b| - 1], primaryService, foreignService) + tail;
      assert (Candidates(a, primaryService, foreignService) + Candidates(b[..|b| - 1], primaryService, foreignService)) + tail
          == Candidates(a, primaryService, foreignService) + (Candidates(b[..|b| - 1], primaryService, foreignService) + tail);
    }
  }

  /** A single module is a candidate once when it joins the two services, and not at all otherwise. */
  lemma CandidatesSingle(m: ModuleConfig, primaryService: string, foreignService: string)
    ensures Candidates([m], primaryService, foreignService)
            == if Joins(m, primaryService, foreignService) then [m] else []
  {
    assert [m][..0] == [];
  }

  /** The test that picks joining link modules can be evaluated: the module is not a link,
      or it has a first relationship and, when that one names the primary service, a
      second one as well. Otherwise reading `serviceName` of a missing entry fails; a link
      module with one relationship naming another service is skipped by the `&&`. */
  predicate ReadableLink(m: ModuleConfig, primaryService: string)
  {
    m.isLink ==> |m.relationships| > 0 && (m.relationships[0].serviceName == primaryService ==> |m.relationships| >= 2)
  }

  predicate ReadableLinks(configs: seq<ModuleConfig>, primaryService: string)
  {
    forall i :: 0 <= i < |configs| ==> ReadableLink(configs[i], primaryService)
  }

  /** `module.linkableKeys?.[key] === entityName`. */
  predicate LinkableTo(m: ModuleConfig, key: string, entityName: string)
  {
    m.linkableKeys.Some? && key in m.linkableKeys.value && m.linkableKeys.value[key] == entityName
  }

  /** The `relationship.serviceName` of the first `extends` entry for the primary service
      and key. */
  function LinkName(extensions: seq<Extend>, primaryService: string, primaryKey: string): Option<string>
  {
    if extensions == [] then None
    else if extensions[0].serviceName == primaryService && extensions[0].relationship.primaryKey == primaryKey
    then Some(extensions[0].relationship.serviceName)
    else LinkName(extensions[1..], primaryService, primaryKey)
  }

  predicate HasLinkName(link: ModuleConfig, primaryService: string)
    requires |link.relationships| >= 1
  {
    Truthy(LinkName(link.extensions, primaryService, link.relationships[0].foreignKey))
  }

  /** `alias?.[0]?.args?.entity`, when it is a non-empty string. */
  function LinkEntity(link: ModuleConfig): Option<string>
  {
    match link.aliases
    case AliasList(ds) =>
      if |ds| > 0 && ds[0].Some? && ds[0].value.entity != "" then Some(ds[0].value.entity) else None
    case _ => None
  }

  /** `alias[0].name` in the string form it takes where it is used: an array of names
      reads as its elements joined with commas. */
  function LinkAlias(link: ModuleConfig): string
    requires LinkEntity(link).Some?
  {
    match link.aliases.decls[0].value.name
    case OneName(n) => n
    case ManyNames(ns) => JoinComma(ns)
  }

  /** Both linkable keys of the link resolve exactly to the two entities. */
  predicate IsDirect(link: ModuleConfig, primaryEntity: string, primaryModule: ModuleConfig,
                     foreignEntity: string, foreignModule: ModuleConfig)
    requires |link.relationships| >= 2
  {
    LinkableTo(primaryModule, link.relationships[0].foreignKey, primaryEntity)
    && LinkableTo(foreignModule, link.relationships[1].foreignKey, foreignEntity)
  }

  /** `foreignModuleConfig.linkableKeys![foreignKey]`: the entity the search looks for,
      absent when the key is not linkable. */
  function IntermediateName(foreignModule: ModuleConfig, foreignKey: string): Option<string>
    requires foreignModule.linkableKeys.Some?
  {
    if foreignKey in foreignModule.linkableKeys.value then Some(foreignModule.linkableKeys.value[foreignKey]) else None
  }

  /** The top-level search of an indirect link, from the foreign entity through the
      foreign schema, with a fresh counter and list and one level per type and one more. */
  function IntermediateSearch(foreignEntity: string, foreignModule: ModuleConfig, foreignKey: string)
    : Result<SearchState, BuildError>
    requires foreignModule.schema.Some? && foreignModule.linkableKeys.Some?
  {
    var types := foreignModule.schema.value;
    Search(types, IntermediateName(foreignModule, foreignKey), foreignEntity, |types| + 1, 0, [])
  }

  /** The intermediate list of an indirect link: it ends with the entity the foreign key
      names, and it is either that entity alone, which then has a field wrapping the
      foreign entity, or one more entity before it that it has a field of. */
  predicate IndirectPath(names: seq<string>, foreignEntity: string, foreignModule: ModuleConfig, foreignKey: string)
  {
    foreignModule.schema.Some? && foreignModule.linkableKeys.Some? && foreignKey in foreignModule.linkableKeys.value
    && var target := foreignModule.linkableKeys.value[foreignKey];
       var types := foreignModule.schema.value;
       || (names == [target] && DirectChildOf(types, target, foreignEntity))
       || (|names| == 2 && names[1] == target && names[0] != target && DirectChildOf(types, target, names[0]))
  }

  predicate ValidMetadata(meta: LinkMetadata, link: ModuleConfig, primaryEntity: string, primaryModule: ModuleConfig,
                          foreignEntity: string, foreignModule: ModuleConfig)
  {
    && meta.linkModule == link
    && |link.relationships| >= 2
    && LinkEntity(link) == Some(meta.entityName)
    && meta.alias == LinkAlias(link)
    && (IsDirect(link, primaryEntity, primaryModule, foreignEntity, foreignModule) ==> meta.intermediateEntityNames == [])
    && (!IsDirect(link, primaryEntity, primaryModule, foreignEntity, foreignModule) ==>
          IndirectPath(meta.intermediateEntityNames, foreignEntity, foreignModule, link.relationships[1].foreignKey))
  }

  /** The metadata of one joining link module, or the error the source raises for it. */
  function MetadataFor(link: ModuleConfig, primaryEntity: string, primaryModule: ModuleConfig,
                       foreignEntity: string, foreignModule: ModuleConfig): (r: Result<LinkMetadata, BuildError>)
    requires Joins(link, primaryModule.serviceName, foreignModule.serviceName)
    ensures r.Ok? ==> ValidMetadata(r.value, link, primaryEntity, primaryModule, foreignEntity, foreignModule)
    ensures !HasLinkName(link, primaryModule.serviceName)
            ==> r == Err(MissingLinkName(primaryModule.serviceName, foreignModule.serviceName))
    ensures HasLinkName(link, primaryModule.serviceName) && LinkEntity(link).None?
            ==> r == Err(MissingLinkEntity(primaryModule.serviceName, foreignModule.serviceName))
    ensures HasLinkName(link, primaryModule.serviceName) && LinkEntity(link).Some?
            && IsDirect(link, primaryEntity, primaryModule, foreignEntity, foreignModule)
            ==> r == Ok(LinkMetadata(LinkEntity(link).value, LinkAlias(link), link, []))
    ensures r.Err? && r.error.MissingLinkableKeys? ==>
              foreignModule.linkableKeys.None? && !IsDirect(link, primaryEntity, primaryModule, foreignEntity, foreignModule)
    ensures r.Err? && r.error.MissingForeignSchema? ==>
              foreignModule.schema.None? && !IsDirect(link, primaryEntity, primaryModule, foreignEntity, foreignModule)
    ensures HasLinkName(link, primaryModule.serviceName) && LinkEntity(link).Some?
            && !IsDirect(link, primaryEntity, primaryModule, foreignEntity, foreignModule)
            && foreignModule.linkableKeys.Some? && foreignModule.schema.Some?
            ==> var s := IntermediateSearch(foreignEntity, foreignModule, link.relationships[1].foreignKey);
                && (r.Ok? <==> s.Ok? && s.value.found == 1)
                && (r.Err? && r.error.UnboundedSearch? <==> s.Err?)
                && (r.Err? && r.error.AmbiguousIntermediatePath? <==> s.Ok? && s.value.found != 1)
                && (r.Ok? ==> var target := IntermediateName(foreignModule, link.relationships[1].foreignKey);
                              target.Some? && r.value.intermediateEntityNames == s.value.path + [target.value])
    ensures r.Err? ==> r.error.MissingLinkName? || r.error.MissingLinkEntity? || r.error.MissingLinkableKeys?
                       || r.error.MissingForeignSchema? || r.error.UnboundedSearch? || r.error.AmbiguousIntermediatePath?
  {
    var ps, fs := primaryModule.serviceName, foreignModule.serviceName;
    var foreignKey := link.relationships[1].foreignKey;
    if !HasLinkName(link, ps) then Err(MissingLinkName(ps, fs))
    else if LinkEntity(link).None? then Err(MissingLinkEntity(ps, fs))
    else if IsDirect(link, primaryEntity, primaryModule, foreignEntity, foreignModule) then
      Ok(LinkMetadata(LinkEntity(link).value, LinkAlias(link), link, []))
    else if foreignModule.linkableKeys.None? then Err(MissingLinkableKeys(fs))
    else if foreignModule.schema.None? then Err(MissingForeignSchema(ps, fs))
    else
      var target := IntermediateName(foreignModule, foreignKey);
      match IntermediateSearch(foreignEntity, foreignModule, foreignKey)
      case Err(e) => Err(e)
      case Ok(s) =>
        if s.found != 1 then Err(AmbiguousIntermediatePath(ps, fs, foreignEntity, target))
        else
          assert s.path[0..] == s.path;
          assert target.Some? && IndirectPath(s.path + [target.value], foreignEntity, foreignModule, foreignKey) by {
            if !s.hit {
              assert ChildOfTarget(foreignModule.schema.value, target, s.path[0]);
            }
          }
          Ok(LinkMetadata(LinkEntity(link).value, LinkAlias(link), link, s.path + [target.value]))
  }

  /** Nothing in the foreign schema encloses the foreign entity: an indirect link has no
      path to its intermediate entity and fails as ambiguous. */
  lemma NoEncloserIsAmbiguous(link: ModuleConfig, primaryEntity: string, primaryModule: ModuleConfig,
                              foreignEntity: string, foreignModule: ModuleConfig)
    requires Joins(link, primaryModule.serviceName, foreignModule.serviceName)
    requires HasLinkName(link, primaryModule.serviceName) && LinkEntity(link).Some?
    requires !IsDirect(link, primaryEntity, primaryModule, foreignEntity, foreignModule)
    requires foreignModule.linkableKeys.Some? && foreignModule.schema.Some?
    requires forall i :: 0 <= i < |foreignModule.schema.value| ==> !Encloses(foreignModule.schema.value[i], foreignEntity)
    ensures MetadataFor(link, primaryEntity, primaryModule, foreignEntity, foreignModule)
            == Err(AmbiguousIntermediatePath(primaryModule.serviceName, foreignModule.serviceName, foreignEntity,
                                             IntermediateName(foreignModule, link.relationships[1].foreignKey)))
  {
    var types := foreignModule.schema.value;
    SearchNoEncloser(types, IntermediateName(foreignModule, link.relationships[1].foreignKey), foreignEntity,
                     |types| + 1, 0, []);
  }

  /** The entity the foreign key names is the first type enclosing the foreign entity: the
      link has that entity as its only intermediate. */
  lemma TargetFirstEncloserLinks(link: ModuleConfig, primaryEntity: string, primaryModule: ModuleConfig,
                                 foreignEntity: string, foreignModule: ModuleConfig, k: nat)
    requires Joins(link, primaryModule.serviceName, foreignModule.serviceName)
    requires HasLinkName(link, primaryModule.serviceName) && LinkEntity(link).Some?
    requires !IsDirect(link, primaryEntity, primaryModule, foreignEntity, foreignModule)
    requires foreignModule.linkableKeys.Some? && foreignModule.schema.Some?
    requires var types := foreignModule.schema.value;
             && k < |types| && Some(types[k].name) == IntermediateName(foreignModule, link.relationships[1].foreignKey)
             && Encloses(types[k], foreignEntity)
             && forall j :: 0 <= j < k ==> !Encloses(types[j], foreignEntity)
    ensures MetadataFor(link, primaryEntity, primaryModule, foreignEntity, foreignModule)
            == Ok(LinkMetadata(LinkEntity(link).value, LinkAlias(link), link, [foreignModule.schema.value[k].name]))
  {
    var types := foreignModule.schema.value;
    SearchTargetFirst(types, IntermediateName(foreignModule, link.relationships[1].foreignKey), foreignEntity,
                      |types| + 1, k, 0, []);
  }

  /** One turn of the loop of `retrieveLinkModuleAndAlias`, for a joining link module. */
  method LinkMetadataFor(link: ModuleConfig, primaryEntity: string, primaryModule: ModuleConfig,
                         foreignEntity: string, foreignModule: ModuleConfig)
    returns (r: Result<LinkMetadata, BuildError>)
    requires Joins(link, primaryModule.serviceName, foreignModule.serviceName)
    ensures r == MetadataFor(link, primaryEntity, primaryModule, foreignEntity, foreignModule)
  {
    var ps, fs := primaryModule.serviceName, foreignModule.serviceName;
    var linkPrimary, linkForeign := link.relationships[0], link.relationships[1];
    var primaryKey := linkPrimary.foreignKey;
    var primaryMatches := LinkableTo(primaryModule, primaryKey, primaryEntity);
    var foreignKey := linkForeign.foreignKey;
    var foreignMatches := LinkableTo(foreignModule, foreignKey, foreignEntity);
    var linkName := LinkName(link.extensions, ps, primaryKey);
    if !Truthy(linkName) {
      return Err(MissingLinkName(ps, fs));
    }
    var linkEntity := LinkEntity(link);
    if linkEntity.None? {
      return Err(MissingLinkEntity(ps, fs));
    }
    if primaryMatches && foreignMatches {
      return Ok(LinkMetadata(linkEntity.value, LinkAlias(link), link, []));
    }
    if foreignModule.linkableKeys.None? {
      return Err(MissingLinkableKeys(fs));
    }
    var intermediate := IntermediateName(foreignModule, foreignKey);
    if foreignModule.schema.None? {
      return Err(MissingForeignSchema(ps, fs));
    }
    var types := foreignModule.schema.value;
    var search := SearchIntermediate(types, intermediate, foreignEntity, |types| + 1, 0, []);
    if search.Err? {
      return Err(search.error);
    }
    if search.value.found != 1 {
      return Err(AmbiguousIntermediatePath(ps, fs, foreignEntity, intermediate));
    }
    return Ok(MetadataFor(link, primaryEntity, primaryModule, foreignEntity, foreignModule).value);
  }

  /** The lookup over the first `n` registered modules: the metadata of the joining link
      modules among them, in order, or the first failure. */
  function LinkLookupFrom(primaryEntity: string, primaryModule: ModuleConfig,
                          foreignEntity: string, foreignModule: ModuleConfig,
                          configs: seq<ModuleConfig>, n: nat): Result<seq<LinkMetadata>, BuildError>
    requires n <= |configs|
  {
    if n == 0 then Ok([])
    else
      var ps, fs := primaryModule.serviceName, foreignModule.serviceName;
      var link := configs[n - 1];
      match LinkLookupFrom(primaryEntity, primaryModule, foreignEntity, foreignModule, configs, n - 1)
      case Err(e) => Err(e)
      case Ok(metas) =>
        if !ReadableLink(link, ps) then Err(MalformedLinkModule(link.serviceName))
        else if !Joins(link, ps, fs) then Ok(metas)
        else match MetadataFor(link, primaryEntity, primaryModule, foreignEntity, foreignModule)
          case Err(e) => Err(e)
          case Ok(m) => Ok(metas + [m])
  }

  /** The loop over the first `n` modules succeeds exactly when each link module among them
      can be read and each joining one yields metadata. */
  lemma {:induction false} LinkLookupFromOk(primaryEntity: string, primaryModule: ModuleConfig,
                                      foreignEntity: string, foreignModule: ModuleConfig,
                                      configs: seq<ModuleConfig>, n: nat)
    requires n <= |configs|
    ensures var r := LinkLookupFrom(primaryEntity, primaryModule, foreignEntity, foreignModule, configs, n);
            r.Ok? <==> && ReadableLinks(configs[..n], primaryModule.serviceName)
                       && forall i :: 0 <= i < n && Joins(configs[i], primaryModule.serviceName, foreignModule.serviceName)
                            ==> MetadataFor(configs[i], primaryEntity, primaryModule, foreignEntity, foreignModule).Ok?
    decreases n
  {
    if n > 0 {
      LinkLookupFromOk(primaryEntity, primaryModule, foreignEntity, foreignModule, configs, n - 1);
      assert configs[..n][..n - 1] == configs[..n - 1];
      assert forall i :: 0 <= i < n - 1 ==> configs[..n][i] == configs[..n - 1][i];
      assert configs[..n][n - 1] == configs[n - 1];
    }
  }

  /** On success the loop holds one entry per joining module, in order. */
  lemma {:induction false} LinkLookupFromEntries(primaryEntity: string, primaryModule: ModuleConfig,
                                      foreignEntity: string, foreignModule: ModuleConfig,
                                      configs: seq<ModuleConfig>, n: nat)
    requires n <= |configs|
    ensures var r := LinkLookupFrom(primaryEntity, primaryModule, foreignEntity, foreignModule, configs, n);
            r.Ok? ==> var cs := Candidates(configs[..n], primaryModule.serviceName, foreignModule.serviceName);
                      && |r.value| == |cs|
                      && forall k :: 0 <= k < |cs| ==>
                           Ok(r.value[k]) == MetadataFor(cs[k], primaryEntity, primaryModule, foreignEntity, foreignModule)
    decreases n
  {
    if n > 0 {
      LinkLookupFromEntries(primaryEntity, primaryModule, foreignEntity, foreignModule, configs, n - 1);
      assert configs[..n][..n - 1] == configs[..n - 1];
      assert forall i :: 0 <= i < n - 1 ==> configs[..n][i] == configs[..n - 1][i];
      assert configs[..n][n - 1] == configs[n - 1];
    }
  }

  /** A failure of the loop is an unreadable link module or a joining module's own error. */
  lemma {:induction false} LinkLookupFromErr(primaryEntity: string, primaryModule: ModuleConfig,
                                      foreignEntity: string, foreignModule: ModuleConfig,
                                      configs: seq<ModuleConfig>, n: nat)
    requires n <= |configs|
    ensures var r := LinkLookupFrom(primaryEntity, primaryModule, foreignEntity, foreignModule, configs, n);
            r.Err? ==>
              || (r.error.MalformedLinkModule? && !ReadableLinks(configs[..n], primaryModule.serviceName))
              || exists i :: 0 <= i < n && Joins(configs[i], primaryModule.serviceName, foreignModule.serviceName)
                   && MetadataFor(configs[i], primaryEntity, primaryModule, foreignEntity, foreignModule) == Err(r.error)
    decreases n
  {
    if n > 0 {
      LinkLookupFromErr(primaryEntity, primaryModule, foreignEntity, foreignModule, configs, n - 1);
      assert configs[..n][..n - 1] == configs[..n - 1];
      assert forall i :: 0 <= i < n - 1 ==> configs[..n][i] == configs[..n - 1][i];
      assert configs[..n][n - 1] == configs[n - 1];
    }
  }

  /** The loop over the first `n` modules succeeds exactly when each link module among them
      can be read and each joining one yields metadata; it then holds one entry per joining
      module, in order; a failure is an unreadable link module or a joining module's own
      error. */
  lemma LinkLookupFromResult(primaryEntity: string, primaryModule: ModuleConfig,
                                      foreignEntity: string, foreignModule: ModuleConfig,
                                      configs: seq<ModuleConfig>, n: nat)
    requires n <= |configs|
    ensures var r := LinkLookupFrom(primaryEntity, primaryModule, foreignEntity, foreignModule, configs, n);
            r.Ok? <==> && ReadableLinks(configs[..n], primaryModule.serviceName)
                       && forall i :: 0 <= i < n && Joins(configs[i], primaryModule.serviceName, foreignModule.serviceName)
                            ==> MetadataFor(configs[i], primaryEntity, primaryModule, foreignEntity, foreignModule).Ok?
    ensures var r := LinkLookupFrom(primaryEntity, primaryModule, foreignEntity, foreignModule, configs, n);
            r.Ok? ==> var cs := Candidates(configs[..n], primaryModule.serviceName, foreignModule.serviceName);
                      && |r.value| == |cs|
                      && forall k :: 0 <= k < |cs| ==>
                           Ok(r.value[k]) == MetadataFor(cs[k], primaryEntity, primaryModule, foreignEntity, foreignModule)
    ensures var r := LinkLookupFrom(primaryEntity, primaryModule, foreignEntity, foreignModule, configs, n);
            r.Err? ==>
              || (r.error.MalformedLinkModule? && !ReadableLinks(configs[..n], primaryModule.serviceName))
              || exists i :: 0 <= i < n && Joins(configs[i], primaryModule.serviceName, foreignModule.serviceName)
                   && MetadataFor(configs[i], primaryEntity, primaryModule, foreignEntity, foreignModule) == Err(r.error)
  {
    LinkLookupFromOk(primaryEntity, primaryModule, foreignEntity, foreignModule, configs, n);
    LinkLookupFromEntries(primaryEntity, primaryModule, foreignEntity, foreignModule, configs, n);
    LinkLookupFromErr(primaryEntity, primaryModule, foreignEntity, foreignModule, configs, n);
  }

  /** `retrieveLinkModuleAndAlias` as a value: the metadata of every joining link module,
      in registry order, failing on the first module that cannot be read or resolved and
      when no link module joins the two services. */
  function LinkLookup(primaryEntity: string, primaryModule: ModuleConfig,
                      foreignEntity: string, foreignModule: ModuleConfig,
                      configs: seq<ModuleConfig>): (r: Result<seq<LinkMetadata>, BuildError>)
    ensures var cs := Candidates(configs, primaryModule.serviceName, foreignModule.serviceName);
            r.Ok? <==> && ReadableLinks(configs, primaryModule.serviceName) && cs != []
                       && forall c :: c in cs ==> MetadataFor(c, primaryEntity, primaryModule, foreignEntity, foreignModule).Ok?
    ensures r.Ok? ==> var cs := Candidates(configs, primaryModule.serviceName, foreignModule.serviceName);
                      && |r.value| == |cs| > 0
                      && forall k :: 0 <= k < |cs| ==>
                           && Ok(r.value[k]) == MetadataFor(cs[k], primaryEntity, primaryModule, foreignEntity, foreignModule)
                           && ValidMetadata(r.value[k], cs[k], primaryEntity, primaryModule, foreignEntity, foreignModule)
                           && HasLinkName(cs[k], primaryModule.serviceName)
    ensures r.Err? && r.error.NoLinkModule? ==>
              ReadableLinks(configs, primaryModule.serviceName)
              && Candidates(configs, primaryModule.serviceName, foreignModule.serviceName) == []
    ensures r.Err? && r.error.MalformedLinkModule? ==> !ReadableLinks(configs, primaryModule.serviceName)
    ensures r.Err? && !r.error.NoLinkModule? && !r.error.MalformedLinkModule? ==>
              exists i :: 0 <= i < |configs| && Joins(configs[i], primaryModule.serviceName, foreignModule.serviceName)
                && MetadataFor(configs[i], primaryEntity, primaryModule, foreignEntity, foreignModule) == Err(r.error)
  {
    var ps, fs := primaryModule.serviceName, foreignModule.serviceName;
    assert configs[..|configs|] == configs;
    var cs := Candidates(configs, ps, fs);
    var found := LinkLookupFrom(primaryEntity, primaryModule, foreignEntity, foreignModule, configs, |configs|);
    LinkLookupFromResult(primaryEntity, primaryModule, foreignEntity, foreignModule, configs, |configs|);
    assert found.Ok? ==> forall c :: c in cs ==> MetadataFor(c, primaryEntity, primaryModule, foreignEntity, foreignModule).Ok? by {
      if found.Ok? {
        forall c | c in cs ensures MetadataFor(c, primaryEntity, primaryModule, foreignEntity, foreignModule).Ok? {
          var k :| 0 <= k < |cs| && cs[k] == c;
        }
      }
    }
    assert ReadableLinks(configs, ps) && (forall c :: c in cs ==> MetadataFor(c, primaryEntity, primaryModule, foreignEntity, foreignModule).Ok?)
           ==> found.Ok? by {
      if ReadableLinks(configs, ps) && (forall c :: c in cs ==> MetadataFor(c, primaryEntity, primaryModule, foreignEntity, foreignModule).Ok?) {
        forall i | 0 <= i < |configs| && Joins(configs[i], ps, fs)
          ensures MetadataFor(configs[i], primaryEntity, primaryModule, foreignEntity, foreignModule).Ok?
        {
          CandidateIncluded(configs, i, ps, fs);
        }
      }
    }
    match found
    case Err(e) => Err(e)
    case Ok(metas) => if metas == [] then Err(NoLinkModule(primaryEntity, foreignEntity)) else Ok(metas)
  }

  /** A lookup that fails on the first `i` modules fails the same way on more of them. */
  lemma {:induction false} LinkLookupPrefixErr(primaryEntity: string, primaryModule: ModuleConfig,
                                               foreignEntity: string, foreignModule: ModuleConfig,
                                               configs: seq<ModuleConfig>, i: nat, n: nat)
    requires i <= n <= |configs|
    requires LinkLookupFrom(primaryEntity, primaryModule, foreignEntity, foreignModule, configs, i).Err?
    ensures LinkLookupFrom(primaryEntity, primaryModule, foreignEntity, foreignModule, configs, n)
            == LinkLookupFrom(primaryEntity, primaryModule, foreignEntity, foreignModule, configs, i)
    decreases n
  {
    if i < n {
      LinkLookupPrefixErr(primaryEntity, primaryModule, foreignEntity, foreignModule, configs, i, n - 1);
    }
  }

  /** `retrieveLinkModuleAndAlias`: the link modules of the registry in order, each joining
      one contributing its metadata. */
  method RetrieveLinkModuleAndAlias(primaryEntity: string, primaryModule: ModuleConfig,
                                    foreignEntity: string, foreignModule: ModuleConfig,
                                    configs: seq<ModuleConfig>)
    returns (r: Result<seq<LinkMetadata>, BuildError>)
    ensures r == LinkLookup(primaryEntity, primaryModule, foreignEntity, foreignModule, configs)
  {
    var ps, fs := primaryModule.serviceName, foreignModule.serviceName;
    var linkModulesMetadata: seq<LinkMetadata> := [];
    var i := 0;
    while i < |configs|
      invariant 0 <= i <= |configs|
      invariant LinkLookupFrom(primaryEntity, primaryModule, foreignEntity, foreignModule, configs, i) == Ok(linkModulesMetadata)
    {
      var link := configs[i];
      if link.isLink {
        if |link.relationships| == 0 || (link.relationships[0].serviceName == ps && |link.relationships| < 2) {
          LinkLookupPrefixErr(primaryEntity, primaryModule, foreignEntity, foreignModule, configs, i + 1, |configs|);
          return Err(MalformedLinkModule(link.serviceName));
        }
        if link.relationships[0].serviceName == ps && link.relationships[1].serviceName == fs {
          var meta := LinkMetadataFor(link, primaryEntity, primaryModule, foreignEntity, foreignModule);
          if meta.Err? {
            LinkLookupPrefixErr(primaryEntity, primaryModule, foreignEntity, foreignModule, configs, i + 1, |configs|);
            return Err(meta.error);
          }
          linkModulesMetadata := linkModulesMetadata + [meta.value];
        }
      }
      i := i + 1;
    }
    if |linkModulesMetadata| == 0 {
      return Err(NoLinkModule(primaryEntity, foreignEntity));
    }
    return Ok(linkModulesMetadata);
  }

  /** The unused helper that reads the linked entity and its alias from a link module for
      one related module (build-config.ts, retrieveLinkedEntityNameAndAliasFromLinkModule). */
  function LinkedEntityNameAndAlias(link: ModuleConfig, related: ModuleConfig): (r: Result<(string, string), BuildError>)
    ensures r.Ok? ==> exists k :: 0 <= k < |link.relationships|
                         && link.relationships[k].serviceName == related.serviceName
                         && (forall j :: 0 <= j < k ==> link.relationships[j].serviceName != related.serviceName)
                         && LinkableTo(related, link.relationships[k].foreignKey, r.value.0)
    ensures r.Ok? ==> r.value.0 != "" && r.value.1 != ""
                      && RetrieveAliasForEntity(r.value.0, related.aliases) == Some(r.value.1)
    ensures (forall k :: 0 <= k < |link.relationships| ==> link.relationships[k].serviceName != related.serviceName)
            ==> r == Err(MissingLinkRelationship(link.serviceName, related.serviceName))
    ensures r.Ok? <==> LinkedThrough(link, related)
    ensures r.Err? && r.error.MissingLinkableKeys? ==> related.linkableKeys.None?
    ensures r.Err? && r.error.UnknownLinkableKey? ==>
              related.linkableKeys.Some?
              && (r.error.foreignKey !in related.linkableKeys.value || related.linkableKeys.value[r.error.foreignKey] == "")
  {
    match RelationshipWith(link.relationships, related.serviceName)
    case None => Err(MissingLinkRelationship(link.serviceName, related.serviceName))
    case Some(k) =>
      var foreignKey := link.relationships[k].foreignKey;
      if related.linkableKeys.None? then Err(MissingLinkableKeys(related.serviceName))
      else if foreignKey !in related.linkableKeys.value || related.linkableKeys.value[foreignKey] == "" then
        Err(UnknownLinkableKey(foreignKey))
      else
        var entityName := related.linkableKeys.value[foreignKey];
        var alias := if related.aliases != NoAliases then RetrieveAliasForEntity(entityName, related.aliases) else None;
        if !Truthy(alias) then Err(MissingAlias(related.serviceName, entityName))
        else Ok((entityName, alias.value))
  }

  /** The helper succeeds: the first relationship naming the related module exists, the related module's
      linkable keys map that relationship's foreign key to a non-empty entity name, and the
      related module has aliases with a non-empty alias for that entity. */
  predicate LinkedThrough(link: ModuleConfig, related: ModuleConfig)
  {
    var k := RelationshipWith(link.relationships, related.serviceName);
    k.Some? && related.linkableKeys.Some?
    && link.relationships[k.value].foreignKey in related.linkableKeys.value
    && related.linkableKeys.value[link.relationships[k.value].foreignKey] != ""
    && related.aliases != NoAliases
    && Truthy(RetrieveAliasForEntity(related.linkableKeys.value[link.relationships[k.value].foreignKey], related.aliases))
  }

  /** `relationships.find(...)` by service name. */
  function RelationshipWith(rels: seq<Relationship>, serviceName: string): (r: Option<nat>)
    ensures r.None? <==> forall k :: 0 <= k < |rels| ==> rels[k].serviceName != serviceName
    ensures r.Some? ==> r.value < |rels| && rels[r.value].serviceName == serviceName
                        && forall j :: 0 <= j < r.value ==> rels[j].serviceName != serviceName
  {
    if rels == [] then None
    else if rels[0].serviceName == serviceName then Some(0)
    else match RelationshipWith(rels[1..], serviceName)
      case None => None
      case Some(k) => Some(k + 1)
  }
}
