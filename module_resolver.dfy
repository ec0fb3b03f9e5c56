/** Finding the module that owns an entity and the alias it exposes the entity under
    (build-config.ts, retrieveModuleAndAlias). */
module ModuleResolver {
  import opened Wrappers
  import opened Schema
  import opened JoinerConfig
  import opened AliasLookup
  import opened CatalogErrors

  /** The module has a schema and its type map has an entry for the entity. */
  predicate Owns(m: ModuleConfig, entityName: string)
  {
    m.schema.Some? && Declares(m.schema.value, entityName)
  }

  /** The position of the first module, in registry order, that owns the entity. */
  function FirstOwner(configs: seq<ModuleConfig>, entityName: string): (r: Option<nat>)
    ensures r.None? <==> forall i :: 0 <= i < |configs| ==> !Owns(configs[i], entityName)
    ensures r.Some? ==> r.value < |configs| && Owns(configs[r.value], entityName)
    ensures r.Some? ==> forall j :: 0 <= j < r.value ==> !Owns(configs[j], entityName)
  {
    if configs == [] then None
    else if Owns(configs[0], entityName) then Some(0)
    else match FirstOwner(configs[1..], entityName)
      case None => None
      case Some(k) => Some(k + 1)
  }

  /** The owning module and the alias the entity is exposed under. */
  datatype Ownership = Ownership(owner: ModuleConfig, alias: string)

  /** Resolution as the source defines it: the first owning module decides, and its own
      aliases must name the entity. */
  function ModuleAndAlias(entityName: string, configs: seq<ModuleConfig>): Result<Ownership, BuildError>
  {
    match FirstOwner(configs, entityName)
    case None => Err(NoOwningModule(entityName))
    case Some(k) =>
      var alias := RetrieveAliasForEntity(entityName, configs[k].aliases);
      if Truthy(alias) then Ok(Ownership(configs[k], alias.value))
      else Err(MissingAlias(configs[k].serviceName, entityName))
  }

  /** The entity fails to resolve as unowned exactly when no module owns it; otherwise the
      first owner in registry order decides, either with a non-empty alias its aliases
      give for the entity, or with a missing-alias failure naming that owner. */
  lemma ModuleAndAliasResolution(entityName: string, configs: seq<ModuleConfig>)
    ensures ModuleAndAlias(entityName, configs) == Err(NoOwningModule(entityName)) <==>
            forall i :: 0 <= i < |configs| ==> !Owns(configs[i], entityName)
    ensures ModuleAndAlias(entityName, configs).Ok? ==>
              exists k :: 0 <= k < |configs| && configs[k] == ModuleAndAlias(entityName, configs).value.owner
                && Owns(configs[k], entityName)
                && forall j :: 0 <= j < k ==> !Owns(configs[j], entityName)
    ensures ModuleAndAlias(entityName, configs).Ok? ==>
              var own := ModuleAndAlias(entityName, configs).value;
              own.alias != "" && RetrieveAliasForEntity(entityName, own.owner.aliases) == Some(own.alias)
    ensures ModuleAndAlias(entityName, configs).Err? && !ModuleAndAlias(entityName, configs).error.NoOwningModule? ==>
              exists k :: 0 <= k < |configs| && Owns(configs[k], entityName)
                && (forall j :: 0 <= j < k ==> !Owns(configs[j], entityName))
                && !Truthy(RetrieveAliasForEntity(entityName, configs[k].aliases))
                && ModuleAndAlias(entityName, configs) == Err(MissingAlias(configs[k].serviceName, entityName))
  {
  }

  /** A resolved entity always has a non-empty alias. */
  lemma ModuleAndAliasNonEmpty(entityName: string, configs: seq<ModuleConfig>)
    ensures ModuleAndAlias(entityName, configs).Ok? ==> ModuleAndAlias(entityName, configs).value.alias != ""
  {
  }

  /** The registry scan with its early `break`, proved to compute `ModuleAndAlias`. */
  method RetrieveModuleAndAlias(entityName: string, configs: seq<ModuleConfig>)
    returns (r: Result<Ownership, BuildError>)
    ensures r == ModuleAndAlias(entityName, configs)
  {
    var relatedModule: Option<ModuleConfig> := None;
    var alias: Option<string> := None;
    var i := 0;
    while i < |configs|
      invariant 0 <= i <= |configs|
      invariant relatedModule.None? && alias.None?
      invariant forall j :: 0 <= j < i ==> !Owns(configs[j], entityName)
    {
      var moduleJoinerConfig := configs[i];
      if moduleJoinerConfig.schema.Some? && Declares(moduleJoinerConfig.schema.value, entityName) {
        relatedModule := Some(moduleJoinerConfig);
      }
      if relatedModule.Some? && moduleJoinerConfig.aliases != NoAliases {
        alias := RetrieveAliasForEntity(entityName, moduleJoinerConfig.aliases);
      }
      if relatedModule.Some? {
        assert FirstOwner(configs, entityName) == Some(i);
        break;
      }
      i := i + 1;
    }
    if relatedModule.None? {
      return Err(NoOwningModule(entityName));
    }
    if !Truthy(alias) {
      return Err(MissingAlias(relatedModule.value.serviceName, entityName));
    }
    return Ok(Ownership(relatedModule.value, alias.value));
  }

  lemma {:induction false} FirstOwnerAppend(configs: seq<ModuleConfig>, more: seq<ModuleConfig>, entityName: string)
    requires FirstOwner(configs, entityName).Some?
    ensures FirstOwner(configs + more, entityName) == FirstOwner(configs, entityName)
  {
    assert (configs + more)[0] == configs[0];
    if !Owns(configs[0], entityName) {
      assert (configs + more)[1..] == configs[1..] + more;
      FirstOwnerAppend(configs[1..], more, entityName);
    }
  }

  /** Once a module owns the entity, modules registered after it are never consulted. */
  lemma LaterModulesIgnored(configs: seq<ModuleConfig>, more: seq<ModuleConfig>, entityName: string)
    requires exists i :: 0 <= i < |configs| && Owns(configs[i], entityName)
    ensures ModuleAndAlias(entityName, configs + more) == ModuleAndAlias(entityName, configs)
  {
    FirstOwnerAppend(configs, more, entityName);
    var k := FirstOwner(configs, entityName).value;
    assert (configs + more)[k] == configs[k];
  }

  /** When two modules claim the entity, the earlier one in the registry decides alone. */
  lemma {:induction false} FirstRegisteredOwnerWins(configs: seq<ModuleConfig>, i: nat, entityName: string)
    requires i < |configs| && Owns(configs[i], entityName)
    requires forall j :: 0 <= j < i ==> !Owns(configs[j], entityName)
    ensures ModuleAndAlias(entityName, configs) == ModuleAndAlias(entityName, [configs[i]])
  {
    assert FirstOwner(configs, entityName) == Some(i);
    assert FirstOwner([configs[i]], entityName) == Some(0);
  }
}
