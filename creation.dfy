/** The order in which the steps of `processEntity` create records. A record is created
    by the first `objectRepresentationRef[name] ??= {...}` that names it, and its name is
    then appended to the representation's order; each function here lists, for one step
    on given records, the names it creates, in the order it creates them. */
module Creation {
  import opened Wrappers
  import opened Schema
  import opened JoinerConfig
  import opened CatalogErrors
  import opened ModuleResolver
  import opened LinkResolver
  import opened Representation
  import opened GraphSteps

  /** `created` lists, once each, exactly the records `after` has and `before` had not. */
  ghost predicate CreatedBetween(before: Arena, after: Arena, created: seq<string>)
  {
    && (forall k :: 0 <= k < |created| ==> created[k] !in before && created[k] in after)
    && (forall n :: n in after && n !in before ==> n in created)
    && (forall j, k :: 0 <= j < k < |created| ==> created[j] != created[k])
  }

  /** Two consecutive steps create what the first creates, then what the second creates. */
  lemma CreatedBetweenChain(a: Arena, b: Arena, c: Arena, x: seq<string>, y: seq<string>)
    requires a.Keys <= b.Keys <= c.Keys
    requires CreatedBetween(a, b, x) && CreatedBetween(b, c, y)
    ensures CreatedBetween(a, c, x + y)
  {
    var xy := x + y;
    forall k | 0 <= k < |xy| ensures xy[k] !in a && xy[k] in c {
      if k >= |x| {
        assert xy[k] == y[k - |x|];
      }
    }
    forall n | n in c && n !in a ensures n in xy {
      if n in b {
        var k :| 0 <= k < |x| && x[k] == n;
        assert xy[k] == n;
      } else {
        var k :| 0 <= k < |y| && y[k] == n;
        assert xy[|x| + k] == n;
      }
    }
    forall j, k | 0 <= j < k < |xy| ensures xy[j] != xy[k] {
      if k < |x| {
      } else if j >= |x| {
        assert xy[j] == y[j - |x|] && xy[k] == y[k - |x|];
      } else {
        assert xy[j] == x[j] && xy[k] == y[k - |x|];
      }
    }
  }

  /** A step that adds at most `name` creates `Inserted(before.Keys, name)`. */
  lemma InsertedBetween(before: Arena, after: Arena, name: string)
    requires after.Keys == before.Keys + {name}
    ensures CreatedBetween(before, after, Inserted(before.Keys, name))
  {
  }

  /** The intermediates a completed chain creates, from step `i - 1` down to step `0`,
      when `known` are the names with a record: each one that had none yet. */
  function ChainCreated(known: set<string>, names: seq<string>, i: nat): seq<string>
    requires i <= |names|
    decreases i
  {
    if i == 0 then []
    else Inserted(known, names[i - 1]) + ChainCreated(known + {names[i - 1]}, names, i - 1)
  }

  /** Configuring intermediate `i - 1` appends it to the order when it is new; what the
      rest of the chain will append then completes the same order. */
  lemma ChainCreatedStep(order: seq<string>, known: set<string>, names: seq<string>, i: nat)
    requires 0 < i <= |names|
    ensures (order + Inserted(known, names[i - 1])) + ChainCreated(known + {names[i - 1]}, names, i - 1)
            == order + ChainCreated(known, names, i)
  {
    var x := Inserted(known, names[i - 1]);
    var y := ChainCreated(known + {names[i - 1]}, names, i - 1);
    assert (order + x) + y == order + (x + y);
  }

  /** Appending in two steps appends the two parts together. */
  lemma AppendAssociates(a: seq<string>, b: seq<string>, c: seq<string>)
    ensures (a + b) + c == a + (b + c)
  {
  }

  /** A completed chain creates exactly the records `ChainCreated` lists. */
  lemma {:induction false} ChainCreatedBetween(nodes: Arena, link: string, names: seq<string>,
                                               lookups: seq<Result<Ownership, BuildError>>, i: nat)
    requires |lookups| == |names|
    requires link in nodes && i <= |names| && (i < |names| ==> names[i] in nodes)
    requires ChainFrom(nodes, link, names, lookups, i).Ok?
    decreases i
    ensures CreatedBetween(nodes, ChainFrom(nodes, link, names, lookups, i).value,
                           ChainCreated(nodes.Keys, names, i))
  {
    if i > 0 {
      var own := lookups[i - 1].value;
      var n1 := Intermediate(nodes, link, names, i - 1, own);
      IntermediateKeepsInvariants(nodes, link, names, i - 1, own);
      InsertedBetween(nodes, n1, names[i - 1]);
      ChainCreatedBetween(n1, link, names, lookups, i - 1);
      CreatedBetweenChain(nodes, n1, ChainFrom(n1, link, names, lookups, i - 1).value,
                          Inserted(nodes.Keys, names[i - 1]), ChainCreated(n1.Keys, names, i - 1));
    }
  }

  /** The records one link module creates: the link node when it had none, then the
      chain's intermediates. Configuring the link node and attaching the child create
      nothing. */
  function LinkCreated(known: set<string>, meta: LinkMetadata): seq<string>
  {
    Inserted(known, meta.entityName)
    + ChainCreated(known + {meta.entityName}, meta.intermediateEntityNames, |meta.intermediateEntityNames|)
  }

  /** The link node's own record comes first in a link module's creation order. */
  lemma LinkCreatedSplit(order: seq<string>, known: set<string>, meta: LinkMetadata)
    ensures (order + Inserted(known, meta.entityName))
            + ChainCreated(known + {meta.entityName}, meta.intermediateEntityNames, |meta.intermediateEntityNames|)
            == order + LinkCreated(known, meta)
  {
    AppendAssociates(order, Inserted(known, meta.entityName),
                     ChainCreated(known + {meta.entityName}, meta.intermediateEntityNames, |meta.intermediateEntityNames|));
  }

  /** A successful link module creates exactly the records `LinkCreated` lists. */
  lemma LinkCreatedBetween(nodes: Arena, child: string, parent: string, meta: LinkMetadata,
                           parentService: string, childService: string,
                           targetProp: string, isList: bool,
                           lookups: seq<Result<Ownership, BuildError>>)
    requires child in nodes && parent in nodes && |lookups| == |meta.intermediateEntityNames|
    requires LinkAttached(nodes, child, parent, meta, parentService, childService, targetProp, isList, lookups).Ok?
    ensures CreatedBetween(nodes,
                           LinkAttached(nodes, child, parent, meta, parentService, childService, targetProp, isList, lookups).value,
                           LinkCreated(nodes.Keys, meta))
  {
    var link := meta.entityName;
    var names := meta.intermediateEntityNames;
    var n0 := GetOrInsert(nodes, link);
    GetOrInsertKeeps(nodes, link);
    var n1 := LinkNodeSet(n0, meta, parent, parentService, childService);
    LinkNodeSetKeeps(n0, meta, parent, parentService, childService);
    var n2 := ChainFrom(n1, link, names, lookups, |names|).value;
    ChainCreatedBetween(n1, link, names, lookups, |names|);
    ChildAttachedKeeps(n2, child, OuterRecord(meta), parent, targetProp, isList);
    InsertedBetween(nodes, n1, link);
    assert n1.Keys == nodes.Keys + {link};
    CreatedBetweenChain(nodes, n1, n2, Inserted(nodes.Keys, link), ChainCreated(n1.Keys, names, |names|));
  }

  /** The records the link modules create, in the order they are attached, up to the
      first failure. */
  function LinksCreated(nodes: Arena, child: string, parent: string, metas: seq<LinkMetadata>,
                        parentService: string, childService: string,
                        targetProp: string, isList: bool, configs: seq<ModuleConfig>): seq<string>
    requires child in nodes && parent in nodes
    decreases |metas|
  {
    if metas == [] then []
    else
      var lookups := Lookups(metas[0].intermediateEntityNames, configs);
      match LinkAttached(nodes, child, parent, metas[0], parentService, childService, targetProp, isList, lookups)
      case Err(_) => []
      case Ok(n) =>
        LinkCreated(nodes.Keys, metas[0])
        + LinksCreated(n, child, parent, metas[1..], parentService, childService, targetProp, isList, configs)
  }

  /** Successful link modules create exactly the records `LinksCreated` lists. */
  lemma {:induction false} LinksCreatedBetween(nodes: Arena, child: string, parent: string, metas: seq<LinkMetadata>,
                                               parentService: string, childService: string,
                                               targetProp: string, isList: bool, configs: seq<ModuleConfig>)
    requires child in nodes && parent in nodes
    requires LinksAttached(nodes, child, parent, metas, parentService, childService, targetProp, isList, configs).Ok?
    decreases |metas|
    ensures CreatedBetween(nodes,
                           LinksAttached(nodes, child, parent, metas, parentService, childService, targetProp, isList, configs).value,
                           LinksCreated(nodes, child, parent, metas, parentService, childService, targetProp, isList, configs))
  {
    if metas != [] {
      var lookups := Lookups(metas[0].intermediateEntityNames, configs);
      var n := LinkAttached(nodes, child, parent, metas[0], parentService, childService, targetProp, isList, lookups).value;
      LinkCreatedBetween(nodes, child, parent, metas[0], parentService, childService, targetProp, isList, lookups);
      LinksCreatedBetween(n, child, parent, metas[1..], parentService, childService, targetProp, isList, configs);
      CreatedBetweenChain(nodes, n,
                          LinksAttached(n, child, parent, metas[1..], parentService, childService, targetProp, isList, configs).value,
                          LinkCreated(nodes.Keys, metas[0]),
                          LinksCreated(n, child, parent, metas[1..], parentService, childService, targetProp, isList, configs));
    }
  }

  /** The records one schema parent creates: the parent's own when it had none, then,
      for a parent reached through link modules, the records those create. */
  function ParentCreated(nodes: Arena, child: string, childModule: ModuleConfig, parentDecl: TypeDecl,
                         configs: seq<ModuleConfig>): seq<string>
    requires child in nodes && nodes[child].moduleConfig.Some? && HasFieldOf(parentDecl, child)
  {
    var parent := parentDecl.name;
    var f := ParentField(parentDecl, child);
    var n0 := GetOrInsert(nodes, parent);
    GetOrInsertKeeps(nodes, parent);
    Inserted(nodes.Keys, parent) +
      if n0[parent].moduleConfig.None? || SameModule(n0[child].moduleConfig.value, n0[parent].moduleConfig.value)
      then []
      else
        match LinkLookup(n0[parent].entity, n0[parent].moduleConfig.value, n0[child].entity, childModule, configs)
        case Err(_) => []
        case Ok(links) =>
          LinksCreated(n0, child, parent, links, n0[parent].moduleConfig.value.serviceName,
                       childModule.serviceName, f.name, f.ty.ListOf?, configs)
  }

  /** A successful parent step creates exactly the records `ParentCreated` lists. */
  lemma ParentCreatedBetween(nodes: Arena, child: string, childModule: ModuleConfig, parentDecl: TypeDecl,
                             configs: seq<ModuleConfig>)
    requires child in nodes && nodes[child].moduleConfig.Some? && HasFieldOf(parentDecl, child)
    requires ParentStep(nodes, child, childModule, parentDecl, configs).Ok?
    ensures CreatedBetween(nodes, ParentStep(nodes, child, childModule, parentDecl, configs).value,
                           ParentCreated(nodes, child, childModule, parentDecl, configs))
  {
    var parent := parentDecl.name;
    var f := ParentField(parentDecl, child);
    var n0 := GetOrInsert(nodes, parent);
    GetOrInsertKeeps(nodes, parent);
    InsertedBetween(nodes, n0, parent);
    var r := ParentStep(nodes, child, childModule, parentDecl, configs).value;
    if SameModule(nodes[child].moduleConfig.value, n0[parent].moduleConfig.value) {
      ParentStepDirect(nodes, child, childModule, parentDecl, configs);
      ParentAttachedKeeps(n0, child, parent, f.name, f.ty.ListOf?);
      CreatedBetweenChain(nodes, n0, r, Inserted(nodes.Keys, parent), []);
      assert Inserted(nodes.Keys, parent) + [] == Inserted(nodes.Keys, parent);
    } else {
      ParentStepAcross(nodes, child, childModule, parentDecl, configs);
      var pm := n0[parent].moduleConfig.value;
      var links := LinkLookup(n0[parent].entity, pm, nodes[child].entity, childModule, configs).value;
      LinksCreatedBetween(n0, child, parent, links, pm.serviceName, childModule.serviceName, f.name, f.ty.ListOf?, configs);
      CreatedBetweenChain(nodes, n0, r, Inserted(nodes.Keys, parent),
                          LinksCreated(n0, child, parent, links, pm.serviceName, childModule.serviceName,
                                       f.name, f.ty.ListOf?, configs));
    }
  }

  /** The records the schema parents create, in the order they are attached, up to the
      first failure. */
  function ParentsCreated(nodes: Arena, child: string, childModule: ModuleConfig, parents: seq<TypeDecl>,
                          configs: seq<ModuleConfig>): seq<string>
    requires child in nodes && nodes[child].moduleConfig.Some?
    requires forall d :: d in parents ==> HasFieldOf(d, child)
    decreases |parents|
  {
    if parents == [] then []
    else
      assert parents[0] in parents;
      match ParentStep(nodes, child, childModule, parents[0], configs)
      case Err(_) => []
      case Ok(n) =>
        ParentCreated(nodes, child, childModule, parents[0], configs)
        + ParentsCreated(n, child, childModule, parents[1..], configs)
  }

  /** Successful parent steps create exactly the records `ParentsCreated` lists. */
  lemma {:induction false} ParentsCreatedBetween(nodes: Arena, child: string, childModule: ModuleConfig,
                                                 parents: seq<TypeDecl>, configs: seq<ModuleConfig>)
    requires child in nodes && nodes[child].moduleConfig.Some?
    requires forall d :: d in parents ==> HasFieldOf(d, child)
    requires ParentsAttached(nodes, child, childModule, parents, configs).Ok?
    decreases |parents|
    ensures CreatedBetween(nodes, ParentsAttached(nodes, child, childModule, parents, configs).value,
                           ParentsCreated(nodes, child, childModule, parents, configs))
  {
    if parents != [] {
      assert parents[0] in parents;
      var n := ParentStep(nodes, child, childModule, parents[0], configs).value;
      ParentCreatedBetween(nodes, child, childModule, parents[0], configs);
      ParentsCreatedBetween(n, child, childModule, parents[1..], configs);
      CreatedBetweenChain(nodes, n, ParentsAttached(n, child, childModule, parents[1..], configs).value,
                          ParentCreated(nodes, child, childModule, parents[0], configs),
                          ParentsCreated(n, child, childModule, parents[1..], configs));
    }
  }

  /** The records `processEntity` creates: the entity's own when it had none, then those
      its schema parents create, in type-map order. */
  function EntityCreated(nodes: Arena, decl: TypeDecl, types: TypeMap, configs: seq<ModuleConfig>): seq<string>
  {
    Inserted(nodes.Keys, decl.name) +
      match EntitySetUp(nodes, decl, configs)
      case Err(_) => []
      case Ok(n1) =>
        EntitySetUpRecord(nodes, decl, configs);
        ParentsCreated(n1, decl.name, ModuleAndAlias(decl.name, configs).value.owner,
                       SchemaParents(types, decl.name), configs)
  }

  /** A successful `processEntity` creates exactly the records `EntityCreated` lists. */
  lemma EntityCreatedBetween(nodes: Arena, decl: TypeDecl, types: TypeMap, configs: seq<ModuleConfig>)
    requires EntityProcessed(nodes, decl, types, configs).Ok?
    ensures CreatedBetween(nodes, EntityProcessed(nodes, decl, types, configs).value,
                           EntityCreated(nodes, decl, types, configs))
  {
    var n1 := EntitySetUp(nodes, decl, configs).value;
    EntitySetUpRecord(nodes, decl, configs);
    EntitySetUpKeeps(nodes, decl, configs);
    InsertedBetween(nodes, n1, decl.name);
    var own := ModuleAndAlias(decl.name, configs).value.owner;
    var parents := SchemaParents(types, decl.name);
    ParentsCreatedBetween(n1, decl.name, own, parents, configs);
    CreatedBetweenChain(nodes, n1, EntityProcessed(nodes, decl, types, configs).value,
                        Inserted(nodes.Keys, decl.name), ParentsCreated(n1, decl.name, own, parents, configs));
  }

  /** An entity that had no record is the first record its processing creates. */
  lemma EntityCreatedFirst(nodes: Arena, decl: TypeDecl, types: TypeMap, configs: seq<ModuleConfig>)
    requires decl.name !in nodes
    ensures |EntityCreated(nodes, decl, types, configs)| > 0 && EntityCreated(nodes, decl, types, configs)[0] == decl.name
  {
  }
}
