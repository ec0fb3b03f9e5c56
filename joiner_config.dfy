/** The module-joiner configuration a module registers: its service name, its own
    compiled schema, its aliases, its relationships, linkable keys and link extensions. */
module JoinerConfig {
  import opened Wrappers
  import opened Schema

  /** An alias `name`: one string or an array of strings. An absent name is `OneName("")`. */
  datatype AliasName = OneName(name: string) | ManyNames(names: seq<string>)

  /** An alias declaration; `entity` is `args.entity`, with "" when it is absent. */
  datatype AliasDecl = AliasDecl(name: AliasName, entity: string)

  /** The `alias` property: absent, one declaration, or an array whose entries may be null. */
  datatype Aliases = NoAliases | OneAlias(decl: AliasDecl) | AliasList(decls: seq<Option<AliasDecl>>)

  datatype Relationship = Relationship(serviceName: string, foreignKey: string)

  /** An `extends` entry: the service it extends and its `relationship`. */
  datatype Extend = Extend(serviceName: string, relationship: ExtendRelationship)

  datatype ExtendRelationship = ExtendRelationship(serviceName: string, primaryKey: string)

  /** `schema` is the compiled type map of the module's own schema, `None` when the module
      has none; `linkableKeys` is `None` when the module has none; `extensions` is its `extends`
      array; an absent `relationships` or `extends` is empty. */
  datatype ModuleConfig = ModuleConfig(
    serviceName: string,
    schema: Option<TypeMap>,
    aliases: Aliases,
    relationships: seq<Relationship>,
    linkableKeys: Option<map<string, string>>,
    isLink: bool,
    extensions: seq<Extend>)
}
