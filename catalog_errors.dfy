/** Every way the catalog build fails, with the names the source's messages carry. */
module CatalogErrors {
  import opened Wrappers

  datatype BuildError =
    /** A declared type lacks a required custom directive. */
    | MissingRequiredDirective(entity: string, directive: string)
    /** The directive is present without any argument: reading `arguments[0].value` fails. */
    | DirectiveWithoutArgument(entity: string, directive: string)
    /** No module schema declares the entity. */
    | NoOwningModule(entity: string)
    /** The owning module yields no alias for the entity. */
    | MissingAlias(serviceName: string, entity: string)
    /** The link module has no relationship with the related module's service. */
    | MissingLinkRelationship(linkService: string, relatedService: string)
    /** The related module's linkable keys do not name an entity for the foreign key. */
    | UnknownLinkableKey(foreignKey: string)
    /** A link module has no relationship, or only one and that one names the primary
        service: reading `serviceName` of the missing entry fails. */
    | MalformedLinkModule(serviceName: string)
    /** The module has no linkable keys at all: reading one of them fails. */
    | MissingLinkableKeys(serviceName: string)
    /** A matching link module has no `extends` entry for the primary service and key. */
    | MissingLinkName(primaryService: string, foreignService: string)
    /** A matching link module has no `alias[0].args.entity`. */
    | MissingLinkEntity(primaryService: string, foreignService: string)
    /** An indirect link needs the foreign module's schema, and there is none. */
    | MissingForeignSchema(primaryService: string, foreignService: string)
    /** Zero or several paths lead from the foreign entity to the intermediate entity. */
    | AmbiguousIntermediatePath(primaryService: string, foreignService: string,
                                foreignEntity: string, intermediate: Option<string>)
    /** No link module joins the two entities. */
    | NoLinkModule(primaryEntity: string, foreignEntity: string)
    /** A schema parent has no module yet: reading `moduleConfig.serviceName` fails. */
    | UnresolvedParent(entity: string, parent: string)
    /** The intermediate search met a cycle in the foreign schema and never returns. */
    | UnboundedSearch(entity: string)
    /** The alias-path walk met a cycle of parents and never returns. */
    | UnboundedAliasPath(entity: string)
}
