/** What each step of `processEntity` does to the arena of entity records, as functions
    of the arena before the step: the custom directives, the link node, the chain of
    intermediate entities and the child's new parent link. */
module GraphSteps {
  import opened Wrappers
  import opened Schema
  import opened JoinerConfig
  import opened CatalogErrors
  import opened ModuleResolver
  import opened LinkResolver
  import opened Representation

  /** The record property a custom directive fills. */
  datatype RepProperty = ListenersProperty

  datatype CustomDirective = CustomDirective(
    property: RepProperty,
    isRequired: bool,
    name: string,
    directive: string,
    definition: string)

  /** The custom directives every declared type is checked against, in order. */
  const CustomDirectives: seq<CustomDirective> :=
    [CustomDirective(ListenersProperty, true, "Listeners", "@Listeners",
                     "directive @Listeners (values: [String!]) on OBJECT")]

  /** The first directive of the type with the given name. */
  function FindDirective(ds: seq<DirectiveNode>, name: string): (r: Option<nat>)
    ensures r.None? <==> forall i :: 0 <= i < |ds| ==> ds[i].name != name
    ensures r.Some? ==> r.value < |ds| && ds[r.value].name == name
    ensures r.Some? ==> forall j :: 0 <= j < r.value ==> ds[j].name != name
  {
    FirstWith(ds, (d: DirectiveNode) => d.name, name)
  }

  /** The strings of a list argument; any other argument value gives none. */
  function ArgumentStrings(v: ArgValue): seq<string>
  {
    match v
    case ListValue(vs) => vs
    case OtherValue => []
  }

  function SetProperty(rep: EntityRep, p: RepProperty, vs: seq<string>): EntityRep
  {
    match p
    case ListenersProperty => rep.(listeners := vs)
  }

  /** The record after the custom directives `cds` are applied in turn: a missing
      required directive fails, a missing optional one ends the pass, and a present one
      without an argument fails on reading its first argument. */
  function ApplyDirectives(rep: EntityRep, ds: seq<DirectiveNode>, cds: seq<CustomDirective>)
    : (r: Result<EntityRep, BuildError>)
    decreases |cds|
    ensures r.Ok? ==> r.value.(listeners := rep.listeners) == rep
    ensures r.Err? ==> (r.error.MissingRequiredDirective? || r.error.DirectiveWithoutArgument?) &&
                       r.error.entity == rep.entity
  {
    if cds == [] then Ok(rep)
    else
      var cd := cds[0];
      match FindDirective(ds, cd.name)
      case None => if cd.isRequired then Err(MissingRequiredDirective(rep.entity, cd.directive)) else Ok(rep)
      case Some(k) =>
        if |ds[k].arguments| == 0 then Err(DirectiveWithoutArgument(rep.entity, cd.directive))
        else ApplyDirectives(SetProperty(rep, cd.property, ArgumentStrings(ds[k].arguments[0])), ds, cds[1..])
  }

  /** `@Listeners` is required, needs an argument, and its list becomes the listeners. */
  lemma ListenersDirectiveRule(rep: EntityRep, ds: seq<DirectiveNode>)
    ensures FindDirective(ds, "Listeners").None? ==>
      ApplyDirectives(rep, ds, CustomDirectives) == Err(MissingRequiredDirective(rep.entity, "@Listeners"))
    ensures FindDirective(ds, "Listeners").Some? && |ds[FindDirective(ds, "Listeners").value].arguments| == 0 ==>
      ApplyDirectives(rep, ds, CustomDirectives) == Err(DirectiveWithoutArgument(rep.entity, "@Listeners"))
    ensures FindDirective(ds, "Listeners").Some? && |ds[FindDirective(ds, "Listeners").value].arguments| > 0 ==>
      ApplyDirectives(rep, ds, CustomDirectives)
        == Ok(rep.(listeners := ArgumentStrings(ds[FindDirective(ds, "Listeners").value].arguments[0])))
  {
    var cds := CustomDirectives;
    assert cds[1..] == [];
  }

  /** The foreign keys of the link module's relationships with either of the two services,
      in order, empty keys dropped. */
  function RelationshipKeys(rels: seq<Relationship>, parentService: string, childService: string)
    : (r: seq<string>)
    ensures |r| <= |rels|
    ensures forall k :: k in r ==>
      (k != "" && exists rel :: rel in rels && rel.foreignKey == k &&
                                (rel.serviceName == parentService || rel.serviceName == childService))
    ensures forall rel :: (rel in rels && rel.foreignKey != "" &&
                           (rel.serviceName == parentService || rel.serviceName == childService))
                          ==> rel.foreignKey in r
  {
    if rels == [] then []
    else
      var rest := RelationshipKeys(rels[1..], parentService, childService);
      var rel := rels[0];
      assert forall x :: x in rels ==> x == rel || x in rels[1..];
      if (rel.serviceName == parentService || rel.serviceName == childService) && rel.foreignKey != ""
      then [rel.foreignKey] + rest
      else rest
  }

  /** The link node after it is configured: the schema parent as its only parent, the
      link alias, the attach and detach listeners, the link module, and as fields the
      relationship keys and the parent's id path, read after the other updates. */
  function LinkNodeSet(nodes: Arena, meta: LinkMetadata, parent: string,
                       parentService: string, childService: string): Arena
    requires meta.entityName in nodes && parent in nodes
  {
    var link := meta.entityName;
    var configured := nodes[link].(
      parents := [ParentLink(parent, meta.alias, None, None)],
      alias := meta.alias,
      listeners := [link + ".attached", link + ".detached"],
      moduleConfig := Some(meta.linkModule));
    var n1 := nodes[link := configured];
    n1[link := configured.(fields := RelationshipKeys(meta.linkModule.relationships, parentService, childService)
                                     + [n1[parent].alias + ".id"])]
  }

  /** Configuring the link node touches only its record and keeps the arena's invariants. */
  lemma LinkNodeSetKeeps(nodes: Arena, meta: LinkMetadata, parent: string,
                         parentService: string, childService: string)
    requires meta.entityName in nodes && parent in nodes
    ensures var r := LinkNodeSet(nodes, meta, parent, parentService, childService);
            && r.Keys == nodes.Keys
            && (forall n :: n in nodes && n != meta.entityName ==> r[n] == nodes[n])
            && (Closed(nodes) ==> Closed(r))
            && (WellKeyed(nodes) ==> WellKeyed(r))
            && Grows(nodes, r)
  {
  }

  /** The record `parentRef` of step `i` of the chain: the link for the last intermediate,
      the next intermediate otherwise. */
  function ChainParent(link: string, names: seq<string>, i: nat): string
    requires i < |names|
  {
    if i == |names| - 1 then link else names[i + 1]
  }

  /** Step `i` of the intermediate chain once the module and alias of `names[i]` are
      known: its record gets a list link to the next record up, the alias, the create
      and update listeners, the module, and the id and link-id fields, with the link's
      alias read after the update. */
  function Intermediate(nodes: Arena, link: string, names: seq<string>, i: nat, own: Ownership): Arena
    requires link in nodes && i < |names| && ChainParent(link, names, i) in nodes
  {
    var name := names[i];
    var n1 := GetOrInsert(nodes, name);
    var rec := n1[name].(
      parents := n1[name].parents + [ParentLink(ChainParent(link, names, i), own.alias, Some(true), None)],
      alias := own.alias,
      listeners := [name + ".created", name + ".updated"],
      moduleConfig := Some(own.owner));
    var n2 := n1[name := rec];
    n2[name := rec.(fields := ["id", n2[link].alias + ".id"])]
  }

  /** A chain step leaves no dangling link, keeps every record under its name, and
      resolves the intermediate it configures. */
  lemma IntermediateKeepsInvariants(nodes: Arena, link: string, names: seq<string>, i: nat, own: Ownership)
    requires link in nodes && i < |names| && ChainParent(link, names, i) in nodes
    ensures Intermediate(nodes, link, names, i, own).Keys == nodes.Keys + {names[i]}
    ensures Grows(nodes, Intermediate(nodes, link, names, i, own))
    ensures Closed(nodes) ==> Closed(Intermediate(nodes, link, names, i, own))
    ensures WellKeyed(nodes) ==> WellKeyed(Intermediate(nodes, link, names, i, own))
    ensures Intermediate(nodes, link, names, i, own)[names[i]].moduleConfig == Some(own.owner)
    ensures forall n :: n in nodes && n != names[i] ==> Intermediate(nodes, link, names, i, own)[n] == nodes[n]
  {
    var name := names[i];
    var n1 := GetOrInsert(nodes, name);
    GetOrInsertKeeps(nodes, name);
    var r := Intermediate(nodes, link, names, i, own);
    assert Closed(n1) ==> LinksInside(n1, r[name].parents);
    PutRecord(n1, name, r[name]);
    assert r == n1[name := r[name]];
  }

  /** What looking up the module and alias of each intermediate gives, in order. The
      registry does not change while the chain is built, so each lookup depends on the
      name alone. */
  function Lookups(names: seq<string>, configs: seq<ModuleConfig>): (r: seq<Result<Ownership, BuildError>>)
    ensures |r| == |names|
    ensures forall j {:trigger r[j]} :: 0 <= j < |names| ==> r[j] == ModuleAndAlias(names[j], configs)
  {
    seq(|names|, j requires 0 <= j < |names| => ModuleAndAlias(names[j], configs))
  }

  /** Steps `i - 1` down to `0` of the chain, applied in that order to `nodes`; the
      record above step `i - 1` is already in place. A failed lookup ends the chain with
      the records of the later steps already updated. */
  function ChainFrom(nodes: Arena, link: string, names: seq<string>,
                     lookups: seq<Result<Ownership, BuildError>>, i: nat): (r: Result<Arena, BuildError>)
    requires |lookups| == |names|
    requires link in nodes && i <= |names| && (i < |names| ==> names[i] in nodes)
    decreases i
    ensures r.Ok? ==> link in r.value && (|names| > 0 ==> names[0] in r.value)
    ensures r.Ok? ==> nodes.Keys <= r.value.Keys
  {
    if i == 0 then Ok(nodes)
    else match lookups[i - 1]
      case Err(e) => Err(e)
      case Ok(own) => ChainFrom(Intermediate(nodes, link, names, i - 1, own), link, names, lookups, i - 1)
  }

  /** A failed lookup ends the chain with its error. */
  lemma ChainFromFails(nodes: Arena, link: string, names: seq<string>,
                       lookups: seq<Result<Ownership, BuildError>>, i: nat, e: BuildError)
    requires |lookups| == |names| && 0 < i <= |names| && lookups[i - 1] == Err(e)
    requires link in nodes && (i < |names| ==> names[i] in nodes)
    ensures ChainFrom(nodes, link, names, lookups, i) == Err(e)
  {
  }

  /** A successful lookup configures intermediate `i - 1`, and the chain goes on below it. */
  lemma ChainFromStep(nodes: Arena, link: string, names: seq<string>,
                      lookups: seq<Result<Ownership, BuildError>>, i: nat, own: Ownership)
    requires |lookups| == |names| && 0 < i <= |names| && lookups[i - 1] == Ok(own)
    requires link in nodes && (i < |names| ==> names[i] in nodes)
    ensures ChainFrom(nodes, link, names, lookups, i)
            == ChainFrom(Intermediate(nodes, link, names, i - 1, own), link, names, lookups, i - 1)
  {
  }

  /** The child's new parent link through `outer` (the first intermediate, or the link),
      with the schema parent kept as `inSchemaRef`, and the id path of `outer` added to
      its fields. */
  function ChildAttached(nodes: Arena, child: string, outer: string, parent: string,
                         targetProp: string, isList: bool): Arena
    requires child in nodes && outer in nodes
  {
    var c := nodes[child].(parents := nodes[child].parents + [ParentLink(outer, targetProp, Some(isList), Some(parent))]);
    var n1 := nodes[child := c];
    n1[child := c.(fields := c.fields + [n1[outer].alias + ".id"])]
  }

  /** Attaching the child touches only its record and keeps the arena's invariants. */
  lemma ChildAttachedKeeps(nodes: Arena, child: string, outer: string, parent: string,
                            targetProp: string, isList: bool)
    requires child in nodes && outer in nodes
    ensures var r := ChildAttached(nodes, child, outer, parent, targetProp, isList);
            && r.Keys == nodes.Keys
            && (forall n :: n in nodes && n != child ==> r[n] == nodes[n])
            && r[child].moduleConfig == nodes[child].moduleConfig
            && (parent in nodes && Closed(nodes) ==> Closed(r))
            && (WellKeyed(nodes) ==> WellKeyed(r))
            && Grows(nodes, r)
  {
  }

  /** The record a child is attached through: the first intermediate, or the link itself. */
  function OuterRecord(meta: LinkMetadata): string
  {
    if |meta.intermediateEntityNames| > 0 then meta.intermediateEntityNames[0] else meta.entityName
  }

  /** One link module's whole effect: the link node is created or found and configured,
      the intermediate chain is built from the link down, and the child is attached. */
  function LinkAttached(nodes: Arena, child: string, parent: string, meta: LinkMetadata,
                        parentService: string, childService: string,
                        targetProp: string, isList: bool,
                        lookups: seq<Result<Ownership, BuildError>>)
    : (r: Result<Arena, BuildError>)
    requires child in nodes && parent in nodes && |lookups| == |meta.intermediateEntityNames|
    ensures r.Ok? ==> meta.entityName in r.value && OuterRecord(meta) in r.value
    ensures r.Ok? ==> nodes.Keys <= r.value.Keys
  {
    var link := meta.entityName;
    var n0 := GetOrInsert(nodes, link);
    var n1 := LinkNodeSet(n0, meta, parent, parentService, childService);
    match ChainFrom(n1, link, meta.intermediateEntityNames, lookups, |meta.intermediateEntityNames|)
    case Err(e) => Err(e)
    case Ok(n2) =>
      Ok(ChildAttached(n2, child, OuterRecord(meta), parent, targetProp, isList))
  }

  /** Every link module in turn, in the order the lookup returned them; the first
      failure ends the pass. */
  function LinksAttached(nodes: Arena, child: string, parent: string, metas: seq<LinkMetadata>,
                         parentService: string, childService: string,
                         targetProp: string, isList: bool, configs: seq<ModuleConfig>)
    : (r: Result<Arena, BuildError>)
    requires child in nodes && parent in nodes
    decreases |metas|
    ensures r.Ok? ==> nodes.Keys <= r.value.Keys
  {
    if metas == [] then Ok(nodes)
    else match LinkAttached(nodes, child, parent, metas[0], parentService, childService, targetProp, isList,
                            Lookups(metas[0].intermediateEntityNames, configs))
      case Err(e) => Err(e)
      case Ok(n) => LinksAttached(n, child, parent, metas[1..], parentService, childService, targetProp, isList, configs)
  }

  /** A parent of the same service, or a link-module parent: a direct link to it, and
      its id path, read after the link is added, appended to the child's fields. */
  function ParentAttached(nodes: Arena, child: string, parent: string, targetProp: string, isList: bool)
    : Arena
    requires child in nodes && parent in nodes
  {
    var c := nodes[child].(parents := nodes[child].parents + [ParentLink(parent, targetProp, Some(isList), None)]);
    var n1 := nodes[child := c];
    n1[child := c.(fields := c.fields + [n1[parent].alias + ".id"])]
  }

  /** Attaching a direct parent touches only the child's record and keeps the arena's invariants. */
  lemma ParentAttachedKeeps(nodes: Arena, child: string, parent: string, targetProp: string, isList: bool)
    requires child in nodes && parent in nodes
    ensures var r := ParentAttached(nodes, child, parent, targetProp, isList);
            && r.Keys == nodes.Keys
            && (forall n :: n in nodes && n != child ==> r[n] == nodes[n])
            && (Closed(nodes) ==> Closed(r))
            && (WellKeyed(nodes) ==> WellKeyed(r))
            && Grows(nodes, r)
  {
  }

  /** A direct parent adds exactly one parent link to the child, pointing at the parent
      with the child's field name and list flag, and the parent's id path to its fields;
      the rest of the child's record is unchanged. */
  lemma ParentAttachedLinksChild(nodes: Arena, child: string, parent: string, targetProp: string, isList: bool)
    requires child in nodes && parent in nodes
    ensures var r := ParentAttached(nodes, child, parent, targetProp, isList);
            && r[child].parents == nodes[child].parents + [ParentLink(parent, targetProp, Some(isList), None)]
            && r[child].fields == nodes[child].fields + [nodes[parent].alias + ".id"]
            && r[child].(parents := nodes[child].parents, fields := nodes[child].fields) == nodes[child]
  {
  }

  /** The field of the schema parent that holds the child: the first one whose type wraps it. */
  function ParentField(parentDecl: TypeDecl, child: string): (f: FieldDef)
    requires HasFieldOf(parentDecl, child)
    ensures f in parentDecl.fields && IsFieldOf(f, child)
  {
    parentDecl.fields[FieldOf(parentDecl.fields, child).value]
  }

  /** The child and the parent share a service, or the parent is itself a link module:
      the parent is attached directly rather than through link modules. */
  predicate SameModule(childModule: ModuleConfig, parentModule: ModuleConfig)
  {
    childModule.serviceName == parentModule.serviceName || parentModule.isLink
  }

  /** The set-up of an entity's own record, before its parents are looked at: created
      if missing, custom directives applied, the projected fields, then the owning
      module and alias. */
  function EntitySetUp(nodes: Arena, decl: TypeDecl, configs: seq<ModuleConfig>)
    : (r: Result<Arena, BuildError>)
  {
    match RecordSetUp(nodes, decl)
    case Err(e) => Err(e)
    case Ok(n1) =>
      match ModuleAndAlias(decl.name, configs)
      case Err(e) => Err(e)
      case Ok(own) => Ok(RecordResolved(n1, decl.name, own))
  }

  /** The first half of the set-up: the record created if missing, the custom directives
      applied and the projected fields stored. */
  function RecordSetUp(nodes: Arena, decl: TypeDecl): (r: Result<Arena, BuildError>)
    ensures r.Ok? ==> decl.name in r.value
  {
    var n0 := GetOrInsert(nodes, decl.name);
    match ApplyDirectives(n0[decl.name], decl.directives, CustomDirectives)
    case Err(e) => Err(e)
    case Ok(rep) => Ok(n0[decl.name := rep.(fields := decl.projection)])
  }

  /** The first half of the set-up keeps the arena's invariants. */
  lemma RecordSetUpKeeps(nodes: Arena, decl: TypeDecl)
    requires RecordSetUp(nodes, decl).Ok?
    ensures var r := RecordSetUp(nodes, decl).value;
            && r.Keys == nodes.Keys + {decl.name}
            && (Sound(nodes) ==> Sound(r))
            && Grows(nodes, r)
  {
    var n0 := GetOrInsert(nodes, decl.name);
    GetOrInsertKeeps(nodes, decl.name);
    var r := RecordSetUp(nodes, decl).value;
    PutRecord(n0, decl.name, r[decl.name]);
    assert r == n0[decl.name := r[decl.name]];
  }

  /** The second half: the owning module and its alias stored on the record. */
  function RecordResolved(nodes: Arena, name: string, own: Ownership): Arena
    requires name in nodes
  {
    nodes[name := nodes[name].(moduleConfig := Some(own.owner), alias := own.alias)]
  }

  /** Storing the module and alias keeps the arena's invariants. */
  lemma RecordResolvedKeeps(nodes: Arena, name: string, own: Ownership)
    requires name in nodes
    ensures var r := RecordResolved(nodes, name, own);
            && r.Keys == nodes.Keys
            && (Sound(nodes) ==> Sound(r))
            && Grows(nodes, r)
  {
    PutRecord(nodes, name, RecordResolved(nodes, name, own)[name]);
  }

  /** The set-up fails on the directives first, then on the module lookup. */
  lemma EntitySetUpFailures(nodes: Arena, decl: TypeDecl, configs: seq<ModuleConfig>)
    ensures var rep := GetOrInsert(nodes, decl.name)[decl.name];
            ApplyDirectives(rep, decl.directives, CustomDirectives).Err? ==>
              EntitySetUp(nodes, decl, configs) == Err(ApplyDirectives(rep, decl.directives, CustomDirectives).error)
    ensures var rep := GetOrInsert(nodes, decl.name)[decl.name];
            ApplyDirectives(rep, decl.directives, CustomDirectives).Ok? && ModuleAndAlias(decl.name, configs).Err? ==>
              EntitySetUp(nodes, decl, configs) == Err(ModuleAndAlias(decl.name, configs).error)
    ensures EntitySetUp(nodes, decl, configs).Ok? ==>
              ApplyDirectives(GetOrInsert(nodes, decl.name)[decl.name], decl.directives, CustomDirectives).Ok? &&
              ModuleAndAlias(decl.name, configs).Ok?
  {
  }

  /** Once the set-up succeeds the record carries the listeners of `@Listeners`, the
      projection, and the first owning module with its non-empty alias; no other record
      changes, and no dangling link appears. */
  lemma EntitySetUpRecord(nodes: Arena, decl: TypeDecl, configs: seq<ModuleConfig>)
    requires EntitySetUp(nodes, decl, configs).Ok?
    ensures var r := EntitySetUp(nodes, decl, configs).value;
            var own := ModuleAndAlias(decl.name, configs).value;
            && r.Keys == nodes.Keys + {decl.name}
            && (forall n :: n in nodes && n != decl.name ==> r[n] == nodes[n])
            && (decl.name in nodes ==> r[decl.name].parents == nodes[decl.name].parents)
            && (WellKeyed(nodes) ==> r[decl.name].entity == decl.name)
            && FindDirective(decl.directives, "Listeners").Some?
            && r[decl.name].listeners
                 == ArgumentStrings(decl.directives[FindDirective(decl.directives, "Listeners").value].arguments[0])
            && r[decl.name].fields == decl.projection
            && r[decl.name].moduleConfig == Some(own.owner)
            && r[decl.name].alias == own.alias && own.alias != ""
  {
    var rep := GetOrInsert(nodes, decl.name)[decl.name];
    ListenersDirectiveRule(rep, decl.directives);
    ModuleAndAliasNonEmpty(decl.name, configs);
  }

  /** The set-up keeps the arena's invariants. */
  lemma EntitySetUpKeeps(nodes: Arena, decl: TypeDecl, configs: seq<ModuleConfig>)
    requires EntitySetUp(nodes, decl, configs).Ok?
    ensures var r := EntitySetUp(nodes, decl, configs).value;
            && (Sound(nodes) ==> Sound(r))
            && Grows(nodes, r)
  {
    var n1 := RecordSetUp(nodes, decl).value;
    RecordSetUpKeeps(nodes, decl);
    RecordResolvedKeeps(n1, decl.name, ModuleAndAlias(decl.name, configs).value);
    GrowsTransitive(nodes, n1, EntitySetUp(nodes, decl, configs).value);
  }

  /** The chain leaves a record alone unless one of its steps names it. */
  lemma {:induction false} ChainLeavesOthers(nodes: Arena, link: string, names: seq<string>,
                                             lookups: seq<Result<Ownership, BuildError>>, i: nat, x: string)
    requires |lookups| == |names| && link in nodes && i <= |names| && (i < |names| ==> names[i] in nodes)
    requires ChainFrom(nodes, link, names, lookups, i).Ok?
    requires x in nodes && x !in names[..i]
    ensures ChainFrom(nodes, link, names, lookups, i).value[x] == nodes[x]
    decreases i
  {
    if i > 0 {
      var own := lookups[i - 1].value;
      IntermediateKeepsInvariants(nodes, link, names, i - 1, own);
      assert names[i - 1] in names[..i];
      assert names[..i - 1] == names[..i][..i - 1];
      ChainLeavesOthers(Intermediate(nodes, link, names, i - 1, own), link, names, lookups, i - 1, x);
    }
  }

  /** A record whose module is `c` keeps it through the chain when every step that
      names it resolves to `c` as well. */
  lemma {:induction false} ChainKeepsModule(nodes: Arena, link: string, names: seq<string>,
                                            lookups: seq<Result<Ownership, BuildError>>, i: nat,
                                            x: string, c: ModuleConfig)
    requires |lookups| == |names| && link in nodes && i <= |names| && (i < |names| ==> names[i] in nodes)
    requires ChainFrom(nodes, link, names, lookups, i).Ok?
    requires x in nodes && nodes[x].moduleConfig == Some(c)
    requires forall j :: 0 <= j < i && names[j] == x && lookups[j].Ok? ==> lookups[j].value.owner == c
    ensures ChainFrom(nodes, link, names, lookups, i).value[x].moduleConfig == Some(c)
    decreases i
  {
    if i > 0 {
      var own := lookups[i - 1].value;
      IntermediateKeepsInvariants(nodes, link, names, i - 1, own);
      ChainKeepsModule(Intermediate(nodes, link, names, i - 1, own), link, names, lookups, i - 1, x, c);
    }
  }

  /** Lookups that depend on the name alone: two steps naming the same entity find the
      same module and alias. */
  predicate NameDetermined(names: seq<string>, lookups: seq<Result<Ownership, BuildError>>)
    requires |lookups| == |names|
  {
    forall a, b :: 0 <= a < |names| && 0 <= b < |names| && names[a] == names[b] ==> lookups[a] == lookups[b]
  }

  lemma LookupsNameDetermined(names: seq<string>, configs: seq<ModuleConfig>)
    ensures NameDetermined(names, Lookups(names, configs))
  {
  }

  /** The first `i` intermediate entities are resolved: each lookup succeeded and the
      entity's record carries the module it found. */
  ghost predicate Resolved(r: Arena, names: seq<string>, lookups: seq<Result<Ownership, BuildError>>, i: nat)
    requires |lookups| == |names| && i <= |names|
  {
    forall j :: 0 <= j < i ==>
      && lookups[j].Ok?
      && names[j] in r
      && r[names[j]].moduleConfig == Some(lookups[j].value.owner)
  }

  /** A chain that completes has resolved every intermediate entity to the module its
      lookup found. */
  lemma {:induction false} ChainResolves(nodes: Arena, link: string, names: seq<string>,
                                         lookups: seq<Result<Ownership, BuildError>>, i: nat)
    requires |lookups| == |names| && NameDetermined(names, lookups)
    requires link in nodes && i <= |names| && (i < |names| ==> names[i] in nodes)
    requires ChainFrom(nodes, link, names, lookups, i).Ok?
    ensures Resolved(ChainFrom(nodes, link, names, lookups, i).value, names, lookups, i)
    decreases i
  {
    if i > 0 {
      var own := lookups[i - 1].value;
      var n1 := Intermediate(nodes, link, names, i - 1, own);
      ChainFromStep(nodes, link, names, lookups, i, own);
      IntermediateKeepsInvariants(nodes, link, names, i - 1, own);
      var v := ChainFrom(n1, link, names, lookups, i - 1).value;
      ChainResolves(n1, link, names, lookups, i - 1);
      SameNameSameOwner(names, lookups, i - 1);
      ChainKeepsModule(n1, link, names, lookups, i - 1, names[i - 1], own.owner);
      ChainFromGrows(n1, link, names, lookups, i - 1, names[i - 1]);
      ResolvedExtend(v, names, lookups, i - 1);
    }
  }

  /** Earlier steps naming the same entity found the same module. */
  lemma SameNameSameOwner(names: seq<string>, lookups: seq<Result<Ownership, BuildError>>, k: nat)
    requires |lookups| == |names| && NameDetermined(names, lookups) && k < |names| && lookups[k].Ok?
    ensures forall j :: 0 <= j < k && names[j] == names[k] && lookups[j].Ok? ==>
              lookups[j].value.owner == lookups[k].value.owner
  {
  }

  /** One more resolved step extends the resolved prefix. */
  lemma ResolvedExtend(r: Arena, names: seq<string>, lookups: seq<Result<Ownership, BuildError>>, i: nat)
    requires |lookups| == |names| && i < |names| && Resolved(r, names, lookups, i)
    requires lookups[i].Ok? && names[i] in r && r[names[i]].moduleConfig == Some(lookups[i].value.owner)
    ensures Resolved(r, names, lookups, i + 1)
  {
  }

  /** Attaching the child to the outer record keeps every resolved intermediate. */
  lemma ChildAttachedKeepsResolved(nodes: Arena, child: string, outer: string, parent: string,
                                   targetProp: string, isList: bool,
                                   names: seq<string>, lookups: seq<Result<Ownership, BuildError>>)
    requires child in nodes && outer in nodes && |lookups| == |names|
    requires Resolved(nodes, names, lookups, |names|)
    ensures Resolved(ChildAttached(nodes, child, outer, parent, targetProp, isList), names, lookups, |names|)
  {
    ChildAttachedKeeps(nodes, child, outer, parent, targetProp, isList);
  }

  /** A record present before the chain is present after it. */
  lemma {:induction false} ChainFromGrows(nodes: Arena, link: string, names: seq<string>,
                                          lookups: seq<Result<Ownership, BuildError>>, i: nat, x: string)
    requires |lookups| == |names| && link in nodes && i <= |names| && (i < |names| ==> names[i] in nodes)
    requires ChainFrom(nodes, link, names, lookups, i).Ok? && x in nodes
    ensures x in ChainFrom(nodes, link, names, lookups, i).value
  {
  }

  /** After one link module is attached, every intermediate entity is resolved to its
      own module. */
  lemma LinkAttachedResolvesChain(nodes: Arena, child: string, parent: string, meta: LinkMetadata,
                                  parentService: string, childService: string,
                                  targetProp: string, isList: bool,
                                  lookups: seq<Result<Ownership, BuildError>>)
    requires child in nodes && parent in nodes && |lookups| == |meta.intermediateEntityNames|
    requires NameDetermined(meta.intermediateEntityNames, lookups)
    requires LinkAttached(nodes, child, parent, meta, parentService, childService, targetProp, isList, lookups).Ok?
    ensures Resolved(LinkAttached(nodes, child, parent, meta, parentService, childService, targetProp, isList, lookups).value,
                     meta.intermediateEntityNames, lookups, |meta.intermediateEntityNames|)
  {
    var link := meta.entityName;
    var names := meta.intermediateEntityNames;
    var n1 := LinkNodeSet(GetOrInsert(nodes, link), meta, parent, parentService, childService);
    var n2 := ChainFrom(n1, link, names, lookups, |names|).value;
    ChainResolves(n1, link, names, lookups, |names|);
    ChildAttachedKeepsResolved(n2, child, OuterRecord(meta), parent, targetProp, isList, names, lookups);
  }

  /** After one link module is attached, the link node, unless it is also one of the
      intermediates, carries the link module, the link alias and the attach and detach
      listeners, under the schema parent, and as fields the keys of its relationships with
      the two services followed by the schema parent's id path. */
  lemma LinkAttachedConfiguresLink(nodes: Arena, child: string, parent: string, meta: LinkMetadata,
                                   parentService: string, childService: string,
                                   targetProp: string, isList: bool,
                                   lookups: seq<Result<Ownership, BuildError>>)
    requires child in nodes && parent in nodes && |lookups| == |meta.intermediateEntityNames|
    requires LinkAttached(nodes, child, parent, meta, parentService, childService, targetProp, isList, lookups).Ok?
    requires meta.entityName !in meta.intermediateEntityNames && meta.entityName != child
    ensures var r := LinkAttached(nodes, child, parent, meta, parentService, childService, targetProp, isList, lookups).value;
            && meta.entityName in r
            && r[meta.entityName].moduleConfig == Some(meta.linkModule)
            && r[meta.entityName].alias == meta.alias
            && r[meta.entityName].listeners == [meta.entityName + ".attached", meta.entityName + ".detached"]
            && r[meta.entityName].parents == [ParentLink(parent, meta.alias, None, None)]
            && r[meta.entityName].fields
               == RelationshipKeys(meta.linkModule.relationships, parentService, childService)
                  + [(if parent == meta.entityName then meta.alias else nodes[parent].alias) + ".id"]
  {
    var link := meta.entityName;
    var names := meta.intermediateEntityNames;
    var n0 := GetOrInsert(nodes, link);
    GetOrInsertKeeps(nodes, link);
    var n1 := LinkNodeSet(n0, meta, parent, parentService, childService);
    var n2 := ChainFrom(n1, link, names, lookups, |names|).value;
    assert names[..|names|] == names;
    ChainLeavesOthers(n1, link, names, lookups, |names|, link);
    ChildAttachedKeeps(n2, child, OuterRecord(meta), parent, targetProp, isList);
  }

  /** Intermediate `j` once configured: the create and update listeners, the id field and
      the link's id path, the alias and module its lookup found, and as its newest parent
      link a list link to the record above it in the chain. */
  predicate ConfiguredIntermediate(r: Arena, link: string, linkAlias: string, names: seq<string>,
                                   lookups: seq<Result<Ownership, BuildError>>, j: nat)
    requires |lookups| == |names| && j < |names|
  {
    && lookups[j].Ok?
    && names[j] in r
    && r[names[j]].listeners == [names[j] + ".created", names[j] + ".updated"]
    && r[names[j]].fields == ["id", linkAlias + ".id"]
    && r[names[j]].alias == lookups[j].value.alias
    && r[names[j]].moduleConfig == Some(lookups[j].value.owner)
    && |r[names[j]].parents| > 0
    && r[names[j]].parents[|r[names[j]].parents| - 1]
       == ParentLink(ChainParent(link, names, j), lookups[j].value.alias, Some(true), None)
  }

  /** The intermediates are distinct and none of them is `x`. */
  predicate DistinctChain(names: seq<string>, x: string)
  {
    x !in names && forall a, b :: 0 <= a < b < |names| ==> names[a] != names[b]
  }

  /** One chain step configures its intermediate, reading the link's alias as it was,
      and leaves the link alone when the intermediate is not the link. */
  lemma IntermediateConfigures(nodes: Arena, link: string, names: seq<string>,
                               lookups: seq<Result<Ownership, BuildError>>, j: nat)
    requires |lookups| == |names| && link in nodes && j < |names| && ChainParent(link, names, j) in nodes
    requires lookups[j].Ok? && names[j] != link
    ensures ConfiguredIntermediate(Intermediate(nodes, link, names, j, lookups[j].value), link, nodes[link].alias,
                                   names, lookups, j)
    ensures Intermediate(nodes, link, names, j, lookups[j].value)[link] == nodes[link]
  {
  }

  /** A completed chain over distinct intermediates, none of them the link, leaves each
      intermediate configured, with the id path of the link as it was before the chain. */
  lemma {:induction false} ChainConfigures(nodes: Arena, link: string, names: seq<string>,
                                           lookups: seq<Result<Ownership, BuildError>>, i: nat, j: nat)
    requires |lookups| == |names| && link in nodes && i <= |names| && (i < |names| ==> names[i] in nodes)
    requires ChainFrom(nodes, link, names, lookups, i).Ok? && j < i && DistinctChain(names, link)
    ensures ConfiguredIntermediate(ChainFrom(nodes, link, names, lookups, i).value, link, nodes[link].alias,
                                   names, lookups, j)
    decreases i
  {
    var own := lookups[i - 1].value;
    var n1 := Intermediate(nodes, link, names, i - 1, own);
    ChainFromStep(nodes, link, names, lookups, i, own);
    assert names[i - 1] in names;
    IntermediateConfigures(nodes, link, names, lookups, i - 1);
    assert link in n1 && names[i - 1] in n1;
    if j == i - 1 {
      assert names[j] !in names[..i - 1];
      ChainLeavesOthers(n1, link, names, lookups, i - 1, names[j]);
    } else {
      ChainConfigures(n1, link, names, lookups, i - 1, j);
    }
  }

  /** After one link module is attached, each intermediate entity, when they are distinct
      and neither the link nor the child, carries the create and update listeners, the id
      field and the link's id path, the alias and module of its own lookup, and a list link
      to the record above it. */
  lemma LinkAttachedConfiguresChain(nodes: Arena, child: string, parent: string, meta: LinkMetadata,
                                    parentService: string, childService: string,
                                    targetProp: string, isList: bool,
                                    lookups: seq<Result<Ownership, BuildError>>, j: nat)
    requires child in nodes && parent in nodes && |lookups| == |meta.intermediateEntityNames|
    requires LinkAttached(nodes, child, parent, meta, parentService, childService, targetProp, isList, lookups).Ok?
    requires DistinctChain(meta.intermediateEntityNames, meta.entityName) && child !in meta.intermediateEntityNames
    requires j < |meta.intermediateEntityNames|
    ensures ConfiguredIntermediate(
              LinkAttached(nodes, child, parent, meta, parentService, childService, targetProp, isList, lookups).value,
              meta.entityName, meta.alias, meta.intermediateEntityNames, lookups, j)
  {
    var link := meta.entityName;
    var names := meta.intermediateEntityNames;
    var n1 := LinkNodeSet(GetOrInsert(nodes, link), meta, parent, parentService, childService);
    var n2 := ChainFrom(n1, link, names, lookups, |names|).value;
    ChainConfigures(n1, link, names, lookups, |names|, j);
    ChildAttachedKeeps(n2, child, OuterRecord(meta), parent, targetProp, isList);
    assert names[j] in names;
  }

  /** After one link module is attached, the child's newest parent link goes through the
      outer record, tagged with the schema parent, and its newest field is the outer
      record's id path. */
  lemma LinkAttachedLinksChild(nodes: Arena, child: string, parent: string, meta: LinkMetadata,
                               parentService: string, childService: string,
                               targetProp: string, isList: bool,
                               lookups: seq<Result<Ownership, BuildError>>)
    requires child in nodes && parent in nodes && |lookups| == |meta.intermediateEntityNames|
    requires LinkAttached(nodes, child, parent, meta, parentService, childService, targetProp, isList, lookups).Ok?
    ensures var r := LinkAttached(nodes, child, parent, meta, parentService, childService, targetProp, isList, lookups).value;
            && child in r && OuterRecord(meta) in r
            && |r[child].parents| > 0
            && r[child].parents[|r[child].parents| - 1]
               == ParentLink(OuterRecord(meta), targetProp, Some(isList), Some(parent))
            && |r[child].fields| > 0
            && r[child].fields[|r[child].fields| - 1] == r[OuterRecord(meta)].alias + ".id"
  {
  }

  /** A record present before the chain keeps its place and, once resolved, its module. */
  lemma {:induction false} ChainFromKeepsResolved(nodes: Arena, link: string, names: seq<string>,
                                                  lookups: seq<Result<Ownership, BuildError>>, i: nat)
    requires |lookups| == |names| && link in nodes && i <= |names| && (i < |names| ==> names[i] in nodes)
    decreases i
    ensures ChainFrom(nodes, link, names, lookups, i).Ok? ==>
              Grows(nodes, ChainFrom(nodes, link, names, lookups, i).value)
  {
    if i > 0 && lookups[i - 1].Ok? {
      var own := lookups[i - 1].value;
      var n1 := Intermediate(nodes, link, names, i - 1, own);
      IntermediateKeepsInvariants(nodes, link, names, i - 1, own);
      ChainFromKeepsResolved(n1, link, names, lookups, i - 1);
      if ChainFrom(n1, link, names, lookups, i - 1).Ok? {
        GrowsTransitive(nodes, n1, ChainFrom(n1, link, names, lookups, i - 1).value);
      }
    }
  }

  /** Attaching one link module keeps every record and every resolved module. */
  lemma LinkAttachedGrows(nodes: Arena, child: string, parent: string, meta: LinkMetadata,
                          parentService: string, childService: string,
                          targetProp: string, isList: bool,
                          lookups: seq<Result<Ownership, BuildError>>)
    requires child in nodes && parent in nodes && |lookups| == |meta.intermediateEntityNames|
    ensures var r := LinkAttached(nodes, child, parent, meta, parentService, childService, targetProp, isList, lookups);
            r.Ok? ==> Grows(nodes, r.value)
  {
    var link := meta.entityName;
    var names := meta.intermediateEntityNames;
    var n0 := GetOrInsert(nodes, link);
    GetOrInsertKeeps(nodes, link);
    var n1 := LinkNodeSet(n0, meta, parent, parentService, childService);
    LinkNodeSetKeeps(n0, meta, parent, parentService, childService);
    GrowsTransitive(nodes, n0, n1);
    ChainFromKeepsResolved(n1, link, names, lookups, |names|);
    var c := ChainFrom(n1, link, names, lookups, |names|);
    if c.Ok? {
      GrowsTransitive(nodes, n1, c.value);
      ChildAttachedKeeps(c.value, child, OuterRecord(meta), parent, targetProp, isList);
      GrowsTransitive(nodes, c.value, ChildAttached(c.value, child, OuterRecord(meta), parent, targetProp, isList));
    }
  }

  /** Attaching every link module keeps every record and every resolved module. */
  lemma {:induction false} LinksAttachedGrows(nodes: Arena, child: string, parent: string, metas: seq<LinkMetadata>,
                                              parentService: string, childService: string,
                                              targetProp: string, isList: bool, configs: seq<ModuleConfig>)
    requires child in nodes && parent in nodes
    decreases |metas|
    ensures var r := LinksAttached(nodes, child, parent, metas, parentService, childService, targetProp, isList, configs);
            r.Ok? ==> Grows(nodes, r.value)
  {
    if metas != [] {
      var lookups := Lookups(metas[0].intermediateEntityNames, configs);
      var step := LinkAttached(nodes, child, parent, metas[0], parentService, childService, targetProp, isList, lookups);
      LinkAttachedGrows(nodes, child, parent, metas[0], parentService, childService, targetProp, isList, lookups);
      if step.Ok? {
        LinksAttachedGrows(step.value, child, parent, metas[1..], parentService, childService, targetProp, isList, configs);
        var r := LinksAttached(step.value, child, parent, metas[1..], parentService, childService, targetProp, isList, configs);
        if r.Ok? {
          GrowsTransitive(nodes, step.value, r.value);
        }
      }
    }
  }

  /** A non-empty run of link modules is the first one's attachment followed by the rest. */
  lemma LinksAttachedFirst(nodes: Arena, child: string, parent: string, metas: seq<LinkMetadata>,
                           parentService: string, childService: string,
                           targetProp: string, isList: bool, configs: seq<ModuleConfig>)
    requires child in nodes && parent in nodes && metas != []
    requires LinksAttached(nodes, child, parent, metas, parentService, childService, targetProp, isList, configs).Ok?
    ensures var step := LinkAttached(nodes, child, parent, metas[0], parentService, childService, targetProp, isList,
                                     Lookups(metas[0].intermediateEntityNames, configs));
            && step.Ok? && child in step.value && parent in step.value
            && LinksAttached(nodes, child, parent, metas, parentService, childService, targetProp, isList, configs)
               == LinksAttached(step.value, child, parent, metas[1..], parentService, childService, targetProp, isList, configs)
  {
  }

  /** The child's newest parent link is `p`. */
  predicate NewestParent(r: Arena, child: string, p: ParentLink)
  {
    child in r && |r[child].parents| > 0 && r[child].parents[|r[child].parents| - 1] == p
  }

  /** One link module leaves the child's newest parent link through its outer record. */
  lemma LinkAttachedNewestParent(nodes: Arena, child: string, parent: string, meta: LinkMetadata,
                                 parentService: string, childService: string,
                                 targetProp: string, isList: bool, configs: seq<ModuleConfig>)
    requires child in nodes && parent in nodes
    requires LinkAttached(nodes, child, parent, meta, parentService, childService, targetProp, isList,
                          Lookups(meta.intermediateEntityNames, configs)).Ok?
    ensures NewestParent(LinkAttached(nodes, child, parent, meta, parentService, childService, targetProp, isList,
                                      Lookups(meta.intermediateEntityNames, configs)).value,
                         child, ParentLink(OuterRecord(meta), targetProp, Some(isList), Some(parent)))
  {
    LinkAttachedLinksChild(nodes, child, parent, meta, parentService, childService, targetProp, isList,
                           Lookups(meta.intermediateEntityNames, configs));
  }

  /** After a non-empty run of link modules, the child's newest parent link is the one the
      last link module added: through its outer record, tagged with the schema parent. */
  lemma {:induction false} LinksAttachedLinksChild(nodes: Arena, child: string, parent: string, metas: seq<LinkMetadata>,
                                                   parentService: string, childService: string,
                                                   targetProp: string, isList: bool, configs: seq<ModuleConfig>)
    requires child in nodes && parent in nodes && metas != []
    requires LinksAttached(nodes, child, parent, metas, parentService, childService, targetProp, isList, configs).Ok?
    decreases |metas|
    ensures NewestParent(LinksAttached(nodes, child, parent, metas, parentService, childService, targetProp, isList, configs).value,
                         child, ParentLink(OuterRecord(metas[|metas| - 1]), targetProp, Some(isList), Some(parent)))
  {
    LinksAttachedFirst(nodes, child, parent, metas, parentService, childService, targetProp, isList, configs);
    var n := LinkAttached(nodes, child, parent, metas[0], parentService, childService, targetProp, isList,
                          Lookups(metas[0].intermediateEntityNames, configs)).value;
    var tail := metas[1..];
    if tail == [] {
      LinkAttachedNewestParent(nodes, child, parent, metas[0], parentService, childService, targetProp, isList, configs);
    } else {
      assert tail[|tail| - 1] == metas[|metas| - 1];
      LinksAttachedLinksChild(n, child, parent, tail, parentService, childService, targetProp, isList, configs);
    }
  }

  /** One schema parent of `child`: the parent's record is created if missing; a parent
      with no module yet fails; one that shares the child's service, or is a link module,
      is attached directly; any other is reached through the link modules the lookup
      returns, and a failed lookup is the step's failure. */
  function ParentStep(nodes: Arena, child: string, childModule: ModuleConfig, parentDecl: TypeDecl,
                      configs: seq<ModuleConfig>): (r: Result<Arena, BuildError>)
    requires child in nodes && nodes[child].moduleConfig.Some? && HasFieldOf(parentDecl, child)
    ensures r.Ok? ==> Grows(nodes, r.value)
    ensures r.Ok? ==> parentDecl.name in r.value && r.value[parentDecl.name].moduleConfig.Some?
  {
    var parent := parentDecl.name;
    var f := ParentField(parentDecl, child);
    var n0 := GetOrInsert(nodes, parent);
    GetOrInsertKeeps(nodes, parent);
    if n0[parent].moduleConfig.None? then Err(UnresolvedParent(child, parent))
    else if SameModule(n0[child].moduleConfig.value, n0[parent].moduleConfig.value) then
      ParentAttachedKeeps(n0, child, parent, f.name, f.ty.ListOf?);
      GrowsTransitive(nodes, n0, ParentAttached(n0, child, parent, f.name, f.ty.ListOf?));
      Ok(ParentAttached(n0, child, parent, f.name, f.ty.ListOf?))
    else
      match LinkLookup(n0[parent].entity, n0[parent].moduleConfig.value, n0[child].entity, childModule, configs)
      case Err(e) => Err(e)
      case Ok(links) =>
        var r := LinksAttached(n0, child, parent, links, n0[parent].moduleConfig.value.serviceName,
                               childModule.serviceName, f.name, f.ty.ListOf?, configs);
        LinksAttachedGrows(n0, child, parent, links, n0[parent].moduleConfig.value.serviceName,
                           childModule.serviceName, f.name, f.ty.ListOf?, configs);
        if r.Ok? then GrowsTransitive(nodes, n0, r.value); r else r
  }

  /** A parent in the child's service, or a link-module parent, is attached directly. */
  lemma ParentStepDirect(nodes: Arena, child: string, childModule: ModuleConfig, parentDecl: TypeDecl,
                         configs: seq<ModuleConfig>)
    requires child in nodes && nodes[child].moduleConfig.Some? && HasFieldOf(parentDecl, child)
    requires var n0 := GetOrInsert(nodes, parentDecl.name);
             n0[parentDecl.name].moduleConfig.Some? &&
             SameModule(nodes[child].moduleConfig.value, n0[parentDecl.name].moduleConfig.value)
    ensures var n0 := GetOrInsert(nodes, parentDecl.name);
            var f := ParentField(parentDecl, child);
            child in n0 &&
            ParentStep(nodes, child, childModule, parentDecl, configs)
            == Ok(ParentAttached(n0, child, parentDecl.name, f.name, f.ty.ListOf?))
  {
    GetOrInsertKeeps(nodes, parentDecl.name);
  }

  /** Any other resolved parent is reached through the link modules the lookup returns; a
      failed lookup is the step's failure. */
  lemma ParentStepAcross(nodes: Arena, child: string, childModule: ModuleConfig, parentDecl: TypeDecl,
                         configs: seq<ModuleConfig>)
    requires child in nodes && nodes[child].moduleConfig.Some? && HasFieldOf(parentDecl, child)
    requires var n0 := GetOrInsert(nodes, parentDecl.name);
             n0[parentDecl.name].moduleConfig.Some? &&
             !SameModule(nodes[child].moduleConfig.value, n0[parentDecl.name].moduleConfig.value)
    ensures var n0 := GetOrInsert(nodes, parentDecl.name);
            var pm := n0[parentDecl.name].moduleConfig.value;
            var f := ParentField(parentDecl, child);
            var found := LinkLookup(n0[parentDecl.name].entity, pm, nodes[child].entity, childModule, configs);
            && child in n0 && parentDecl.name in n0
            && (found.Err? ==> ParentStep(nodes, child, childModule, parentDecl, configs) == Err(found.error))
            && (found.Ok? ==> found.value != [])
            && (found.Ok? ==> ParentStep(nodes, child, childModule, parentDecl, configs)
                              == LinksAttached(n0, child, parentDecl.name, found.value, pm.serviceName,
                                               childModule.serviceName, f.name, f.ty.ListOf?, configs))
  {
    GetOrInsertKeeps(nodes, parentDecl.name);
  }

  /** The child's newest parent link carries the field name and list flag, and either
      points at the parent itself or goes through a link module's record and names the
      parent as `inSchemaRef`. */
  predicate AttachedTo(r: Arena, child: string, parent: string, targetProp: string, isList: bool)
  {
    && child in r && |r[child].parents| > 0
    && var p := r[child].parents[|r[child].parents| - 1];
       && p.targetProp == targetProp && p.isList == Some(isList)
       && ((p.ref == parent && p.inSchemaRef.None?) || p.inSchemaRef == Some(parent))
  }

  /** A direct attachment attaches the child to the parent. */
  lemma ParentAttachedAttaches(nodes: Arena, child: string, parent: string, targetProp: string, isList: bool)
    requires child in nodes && parent in nodes
    ensures AttachedTo(ParentAttached(nodes, child, parent, targetProp, isList), child, parent, targetProp, isList)
  {
    ParentAttachedLinksChild(nodes, child, parent, targetProp, isList);
  }

  /** A non-empty run of link modules attaches the child to the schema parent. */
  lemma LinksAttachedAttaches(nodes: Arena, child: string, parent: string, metas: seq<LinkMetadata>,
                              parentService: string, childService: string,
                              targetProp: string, isList: bool, configs: seq<ModuleConfig>)
    requires child in nodes && parent in nodes && metas != []
    requires LinksAttached(nodes, child, parent, metas, parentService, childService, targetProp, isList, configs).Ok?
    ensures AttachedTo(LinksAttached(nodes, child, parent, metas, parentService, childService, targetProp, isList, configs).value,
                       child, parent, targetProp, isList)
  {
    LinksAttachedLinksChild(nodes, child, parent, metas, parentService, childService, targetProp, isList, configs);
  }

  /** A successful parent step attaches the child to that parent, under the parent's
      field that holds it. */
  lemma ParentStepLinksChild(nodes: Arena, child: string, childModule: ModuleConfig, parentDecl: TypeDecl,
                             configs: seq<ModuleConfig>)
    requires child in nodes && nodes[child].moduleConfig.Some? && HasFieldOf(parentDecl, child)
    requires ParentStep(nodes, child, childModule, parentDecl, configs).Ok?
    ensures var f := ParentField(parentDecl, child);
            AttachedTo(ParentStep(nodes, child, childModule, parentDecl, configs).value,
                       child, parentDecl.name, f.name, f.ty.ListOf?)
  {
    var parent := parentDecl.name;
    var f := ParentField(parentDecl, child);
    var n0 := GetOrInsert(nodes, parent);
    GetOrInsertKeeps(nodes, parent);
    if SameModule(nodes[child].moduleConfig.value, n0[parent].moduleConfig.value) {
      ParentStepDirect(nodes, child, childModule, parentDecl, configs);
      ParentAttachedAttaches(n0, child, parent, f.name, f.ty.ListOf?);
    } else {
      ParentStepAcross(nodes, child, childModule, parentDecl, configs);
      var pm := n0[parent].moduleConfig.value;
      var found := LinkLookup(n0[parent].entity, pm, nodes[child].entity, childModule, configs);
      LinksAttachedAttaches(n0, child, parent, found.value, pm.serviceName,
                            childModule.serviceName, f.name, f.ty.ListOf?, configs);
    }
  }

  /** Each schema parent in turn, in the order given; the first failure ends the pass.
      On success every parent has a record with a module, and nothing resolved is lost. */
  function ParentsAttached(nodes: Arena, child: string, childModule: ModuleConfig, parents: seq<TypeDecl>,
                           configs: seq<ModuleConfig>): (r: Result<Arena, BuildError>)
    requires child in nodes && nodes[child].moduleConfig.Some?
    requires forall d :: d in parents ==> HasFieldOf(d, child)
    decreases |parents|
    ensures r.Ok? ==> Grows(nodes, r.value)
    ensures r.Ok? ==> forall d :: d in parents ==> d.name in r.value && r.value[d.name].moduleConfig.Some?
  {
    if parents == [] then Ok(nodes)
    else
      assert parents[0] in parents;
      match ParentStep(nodes, child, childModule, parents[0], configs)
      case Err(e) => Err(e)
      case Ok(n) =>
        var r := ParentsAttached(n, child, childModule, parents[1..], configs);
        if r.Ok? then
          GrowsTransitive(nodes, n, r.value);
          assert forall d :: d in parents ==> d == parents[0] || d in parents[1..];
          r
        else r
  }

  /** One more parent at the end runs after all the others, on the records they left. */
  lemma {:induction false} ParentsAttachedAppend(nodes: Arena, child: string, childModule: ModuleConfig,
                                                 parents: seq<TypeDecl>, d: TypeDecl, configs: seq<ModuleConfig>)
    requires child in nodes && nodes[child].moduleConfig.Some?
    requires (forall p :: p in parents ==> HasFieldOf(p, child)) && HasFieldOf(d, child)
    decreases |parents|
    ensures var before := ParentsAttached(nodes, child, childModule, parents, configs);
            ParentsAttached(nodes, child, childModule, parents + [d], configs)
            == if before.Err? then before else ParentStep(before.value, child, childModule, d, configs)
  {
    var all := parents + [d];
    assert forall p :: p in all ==> p in parents || p == d;
    if parents == [] {
      assert all[1..] == [];
    } else {
      assert all[0] == parents[0] && all[1..] == parents[1..] + [d];
      var step := ParentStep(nodes, child, childModule, parents[0], configs);
      if step.Ok? {
        assert parents[0] in parents;
        ParentsAttachedAppend(step.value, child, childModule, parents[1..], d, configs);
      }
    }
  }

  /** `processEntity` on the records: the set-up of the entity's own record, then each of
      its schema parents in type-map order, with the owning module found in the set-up. */
  function EntityProcessed(nodes: Arena, decl: TypeDecl, types: TypeMap, configs: seq<ModuleConfig>)
    : (r: Result<Arena, BuildError>)
    ensures EntitySetUp(nodes, decl, configs).Err? ==> r == Err(EntitySetUp(nodes, decl, configs).error)
    ensures r.Ok? ==> Grows(nodes, r.value) && decl.name in r.value && r.value[decl.name].moduleConfig.Some?
    ensures r.Ok? ==> forall d :: d in SchemaParents(types, decl.name) ==>
                        d.name in r.value && r.value[d.name].moduleConfig.Some?
  {
    match EntitySetUp(nodes, decl, configs)
    case Err(e) => Err(e)
    case Ok(n1) =>
      EntitySetUpRecord(nodes, decl, configs);
      EntitySetUpKeeps(nodes, decl, configs);
      var r := ParentsAttached(n1, decl.name, ModuleAndAlias(decl.name, configs).value.owner,
                               SchemaParents(types, decl.name), configs);
      if r.Ok? then GrowsTransitive(nodes, n1, r.value); r else r
  }

  /** Two type maps that list the same schema parents for the entity process it alike. */
  lemma EntityProcessedParentsOnly(nodes: Arena, decl: TypeDecl, types: TypeMap, other: TypeMap,
                                   configs: seq<ModuleConfig>)
    requires SchemaParents(types, decl.name) == SchemaParents(other, decl.name)
    ensures EntityProcessed(nodes, decl, types, configs) == EntityProcessed(nodes, decl, other, configs)
  {
  }
}
