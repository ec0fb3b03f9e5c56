/** `buildSchemaObjectRepresentation`: every type of the type map that has an AST node is
    processed in turn, then the alias-path table is built over the finished records. */
module BuildConfig {
  import opened Wrappers
  import opened Schema
  import opened JoinerConfig
  import opened CatalogErrors
  import opened Representation
  import opened AliasMap
  import opened EntityGraph
  import opened GraphSteps
  import opened Creation

  /** The first `k` types that have an AST node all have a record whose module is resolved. */
  ghost predicate Processed(nodes: Arena, types: TypeMap, k: nat)
    requires k <= |types|
  {
    forall j :: 0 <= j < k && types[j].kind != NoAstNode ==>
      types[j].name in nodes && nodes[types[j].name].moduleConfig.Some?
  }

  /** A record that stays and keeps its module keeps every type processed. */
  lemma ProcessedGrows(before: Arena, after: Arena, types: TypeMap, k: nat)
    requires k <= |types| && Processed(before, types, k) && Grows(before, after)
    ensures Processed(after, types, k)
  {
    forall j | 0 <= j < k && types[j].kind != NoAstNode
      ensures types[j].name in after && after[types[j].name].moduleConfig.Some?
    {
      assert types[j].name in before;
    }
  }

  /** Every record's bare alias is a key of a table built over all of them. */
  lemma BareAliasesListed(nodes: Arena, order: seq<string>, table: map<string, PathEntry>)
    requires Closed(nodes) && Listing(order, nodes.Keys)
    requires AliasTable(nodes, order, |order|, |nodes| + 1) == Ok(table)
    ensures forall n :: n in nodes ==> nodes[n].alias in table
  {
    forall n | n in nodes ensures nodes[n].alias in table {
      var i :| 0 <= i < |order| && order[i] == n;
      AliasTableHasPaths(nodes, order, |order|, |nodes| + 1, i);
    }
  }

  /** The loop of `buildSchemaObjectRepresentation` on the records: each type of `todo`
      with an AST node is processed in turn, its schema parents taken from the whole type
      map `all`; types without one are skipped, and the first failure ends the loop. */
  function TypesProcessedOver(nodes: Arena, todo: TypeMap, all: TypeMap, configs: seq<ModuleConfig>)
    : (r: Result<Arena, BuildError>)
    decreases |todo|
    ensures r.Ok? ==> Grows(nodes, r.value)
  {
    if todo == [] then Ok(nodes)
    else
      match TypeStep(nodes, todo[0], all, configs)
      case Err(e) => Err(e)
      case Ok(n) =>
        var r := TypesProcessedOver(n, todo[1..], all, configs);
        if r.Ok? then GrowsTransitive(nodes, n, r.value); r else r
  }

  /** One turn of the loop on the records: a type without an AST node leaves them as
      they are; any other type is processed. */
  function TypeStep(nodes: Arena, decl: TypeDecl, all: TypeMap, configs: seq<ModuleConfig>)
    : (r: Result<Arena, BuildError>)
    ensures decl.kind == NoAstNode ==> r == Ok(nodes)
    ensures r.Ok? ==> Grows(nodes, r.value)
  {
    if decl.kind == NoAstNode then Ok(nodes) else EntityProcessed(nodes, decl, all, configs)
  }

  /** The loop over `todo[k..]` is its first turn followed by the loop over `todo[k + 1..]`. */
  lemma TypesProcessedOverNext(nodes: Arena, todo: TypeMap, k: nat, all: TypeMap, configs: seq<ModuleConfig>)
    requires k < |todo|
    ensures var step := TypeStep(nodes, todo[k], all, configs);
            TypesProcessedOver(nodes, todo[k..], all, configs)
            == if step.Err? then Err(step.error) else TypesProcessedOver(step.value, todo[k + 1..], all, configs)
  {
    assert todo[k..][0] == todo[k] && todo[k..][1..] == todo[k + 1..];
  }

  /** The records `buildSchemaObjectRepresentation` builds from an empty representation. */
  function TypesProcessed(types: TypeMap, configs: seq<ModuleConfig>): Result<Arena, BuildError>
  {
    TypesProcessedOver(map[], types, types, configs)
  }

  /** Once the loop completes, every type of `todo` with an AST node has a record whose
      module is resolved. */
  lemma {:induction false} TypesProcessedOverResolves(nodes: Arena, todo: TypeMap, all: TypeMap, configs: seq<ModuleConfig>)
    requires TypesProcessedOver(nodes, todo, all, configs).Ok?
    decreases |todo|
    ensures var r := TypesProcessedOver(nodes, todo, all, configs).value;
            forall d :: d in todo && d.kind != NoAstNode ==> d.name in r && r[d.name].moduleConfig.Some?
  {
    if todo != [] {
      assert forall d :: d in todo ==> d == todo[0] || d in todo[1..];
      var n := TypeStep(nodes, todo[0], all, configs).value;
      TypesProcessedOverResolves(n, todo[1..], all, configs);
    }
  }

  /** A finished build has processed every type with an AST node. */
  lemma TypesProcessedResolves(types: TypeMap, configs: seq<ModuleConfig>)
    requires TypesProcessed(types, configs).Ok?
    ensures Processed(TypesProcessed(types, configs).value, types, |types|)
  {
    TypesProcessedOverResolves(map[], types, types, configs);
    forall j | 0 <= j < |types| && types[j].kind != NoAstNode
      ensures types[j].name in TypesProcessed(types, configs).value
    {
      assert types[j] in types;
    }
  }

  /** The loop reads the type map only through the schema parents it lists. */
  lemma {:induction false} TypesProcessedOverParentsOnly(nodes: Arena, todo: TypeMap, all: TypeMap, other: TypeMap,
                                                         configs: seq<ModuleConfig>)
    requires forall e :: SchemaParents(all, e) == SchemaParents(other, e)
    decreases |todo|
    ensures TypesProcessedOver(nodes, todo, all, configs) == TypesProcessedOver(nodes, todo, other, configs)
  {
    if todo != [] {
      EntityProcessedParentsOnly(nodes, todo[0], all, other, configs);
      var step := TypeStep(nodes, todo[0], all, configs);
      if step.Ok? {
        TypesProcessedOverParentsOnly(step.value, todo[1..], all, other, configs);
      }
    }
  }

  /** A type without an AST node is skipped wherever it stands in the loop. */
  lemma {:induction false} TypesProcessedOverSkips(nodes: Arena, a: TypeMap, d: TypeDecl, b: TypeMap, all: TypeMap,
                                                   configs: seq<ModuleConfig>)
    requires d.kind == NoAstNode
    decreases |a|
    ensures TypesProcessedOver(nodes, a + [d] + b, all, configs) == TypesProcessedOver(nodes, a + b, all, configs)
  {
    if a == [] {
      assert a + [d] + b == [d] + b && ([d] + b)[1..] == b && a + b == b;
    } else {
      assert (a + [d] + b)[0] == a[0] && (a + [d] + b)[1..] == a[1..] + [d] + b;
      assert (a + b)[0] == a[0] && (a + b)[1..] == a[1..] + b;
      var step := TypeStep(nodes, a[0], all, configs);
      if step.Ok? {
        TypesProcessedOverSkips(step.value, a[1..], d, b, all, configs);
      }
    }
  }

  /** A type without an AST node changes nothing: the build over a type map that holds
      it is the build over the type map without it. It is never processed, and it is
      never anyone's schema parent. */
  lemma NoAstNodeTypeIgnored(a: TypeMap, d: TypeDecl, b: TypeMap, configs: seq<ModuleConfig>)
    requires d.kind == NoAstNode
    ensures TypesProcessed(a + [d] + b, configs) == TypesProcessed(a + b, configs)
  {
    forall e ensures SchemaParents(a + [d] + b, e) == SchemaParents(a + b, e) {
      SchemaParentsAppend(a + [d], b, e);
      SchemaParentsAppend(a, [d], e);
      SchemaParentsSingle(d, e);
      SchemaParentsAppend(a, b, e);
    }
    TypesProcessedOverSkips(map[], a, d, b, a + [d] + b, configs);
    TypesProcessedOverParentsOnly(map[], a + b, a + [d] + b, a + b, configs);
  }

  /** The records one turn of the loop creates: none for a type without an AST node. */
  function TypeCreated(nodes: Arena, decl: TypeDecl, all: TypeMap, configs: seq<ModuleConfig>): seq<string>
  {
    if decl.kind == NoAstNode then [] else EntityCreated(nodes, decl, all, configs)
  }

  /** The records the loop over `todo` creates, in the order it creates them, up to the
      first failure. */
  function TypesCreatedOver(nodes: Arena, todo: TypeMap, all: TypeMap, configs: seq<ModuleConfig>): seq<string>
    decreases |todo|
  {
    if todo == [] then []
    else
      match TypeStep(nodes, todo[0], all, configs)
      case Err(_) => []
      case Ok(n) => TypeCreated(nodes, todo[0], all, configs) + TypesCreatedOver(n, todo[1..], all, configs)
  }

  /** The creation order of the records `buildSchemaObjectRepresentation` builds. */
  function CreationOrder(types: TypeMap, configs: seq<ModuleConfig>): seq<string>
  {
    TypesCreatedOver(map[], types, types, configs)
  }

  /** The records created from the `k`-th type on: that type's, then the rest's. */
  lemma TypesCreatedOverNext(nodes: Arena, todo: TypeMap, k: nat, all: TypeMap, configs: seq<ModuleConfig>)
    requires k < |todo|
    ensures var step := TypeStep(nodes, todo[k], all, configs);
            TypesCreatedOver(nodes, todo[k..], all, configs)
            == if step.Err? then [] else TypeCreated(nodes, todo[k], all, configs)
                                         + TypesCreatedOver(step.value, todo[k + 1..], all, configs)
  {
    assert todo[k..][0] == todo[k] && todo[k..][1..] == todo[k + 1..];
  }

  /** A completed loop creates exactly the records `TypesCreatedOver` lists. */
  lemma {:induction false} TypesCreatedOverBetween(nodes: Arena, todo: TypeMap, all: TypeMap, configs: seq<ModuleConfig>)
    requires TypesProcessedOver(nodes, todo, all, configs).Ok?
    decreases |todo|
    ensures CreatedBetween(nodes, TypesProcessedOver(nodes, todo, all, configs).value,
                           TypesCreatedOver(nodes, todo, all, configs))
  {
    if todo != [] {
      var n := TypeStep(nodes, todo[0], all, configs).value;
      if todo[0].kind != NoAstNode {
        EntityCreatedBetween(nodes, todo[0], all, configs);
      }
      TypesCreatedOverBetween(n, todo[1..], all, configs);
      CreatedBetweenChain(nodes, n, TypesProcessedOver(n, todo[1..], all, configs).value,
                          TypeCreated(nodes, todo[0], all, configs), TypesCreatedOver(n, todo[1..], all, configs));
    }
  }

  /** A finished build's creation order lists every record exactly once. */
  lemma CreationOrderLists(types: TypeMap, configs: seq<ModuleConfig>)
    requires TypesProcessed(types, configs).Ok?
    ensures CreatedBetween(map[], TypesProcessed(types, configs).value, CreationOrder(types, configs))
  {
    TypesCreatedOverBetween(map[], types, types, configs);
  }

  /** The records created while the first types are processed come before those created
      for the types after them. */
  lemma {:induction false} TypesCreatedOverAppend(nodes: Arena, a: TypeMap, b: TypeMap, all: TypeMap,
                                                  configs: seq<ModuleConfig>)
    requires TypesProcessedOver(nodes, a, all, configs).Ok?
    decreases |a|
    ensures TypesCreatedOver(nodes, a + b, all, configs)
            == TypesCreatedOver(nodes, a, all, configs)
               + TypesCreatedOver(TypesProcessedOver(nodes, a, all, configs).value, b, all, configs)
  {
    if a == [] {
      assert a + b == b;
    } else {
      assert (a + b)[0] == a[0] && (a + b)[1..] == a[1..] + b;
      var n := TypeStep(nodes, a[0], all, configs).value;
      TypesCreatedOverAppend(n, a[1..], b, all, configs);
      var x := TypeCreated(nodes, a[0], all, configs);
      var y := TypesCreatedOver(n, a[1..], all, configs);
      var z := TypesCreatedOver(TypesProcessedOver(nodes, a, all, configs).value, b, all, configs);
      assert x + (y + z) == (x + y) + z;
    }
  }

  /** The first type of a finished build, when it has an AST node, is the first record
      created. */
  lemma FirstTypeCreatedFirst(types: TypeMap, configs: seq<ModuleConfig>)
    requires TypesProcessed(types, configs).Ok? && |types| > 0 && types[0].kind != NoAstNode
    ensures |CreationOrder(types, configs)| > 0 && CreationOrder(types, configs)[0] == types[0].name
  {
    EntityCreatedFirst(map[], types[0], types, configs);
  }

  /** One turn of the loop of `buildSchemaObjectRepresentation`: the `k`-th type is
      processed when it has an AST node and skipped otherwise. */
  method ProcessType(rep: ObjectRepresentation, types: TypeMap, configs: seq<ModuleConfig>, k: nat) returns (r: Outcome<BuildError>)
    requires rep.Valid() && k < |types|
    modifies rep
    ensures rep.Valid() && Grows(old(rep.entities), rep.entities)
    ensures rep.schemaPropertiesMap == old(rep.schemaPropertiesMap)
    ensures types[k].kind == NoAstNode ==> r == Pass && rep.entities == old(rep.entities)
    ensures r.Pass? <==> TypeStep(old(rep.entities), types[k], types, configs).Ok?
    ensures r.Pass? ==> rep.entities == TypeStep(old(rep.entities), types[k], types, configs).value
    ensures r.Fail? ==> r.error == TypeStep(old(rep.entities), types[k], types, configs).error
    ensures r.Pass? ==> rep.order == old(rep.order) + TypeCreated(old(rep.entities), types[k], types, configs)
  {
    var decl := types[k];
    if decl.kind == NoAstNode {
      assert rep.order + [] == rep.order;
      return Pass;
    }
    r := rep.ProcessEntity(decl, types, configs);
  }

  /** The loop of `buildSchemaObjectRepresentation`: each type with an AST node is
      processed in type-map order; types without one are skipped, and the first failure
      stops the loop. */
  method ProcessTypes(rep: ObjectRepresentation, types: TypeMap, configs: seq<ModuleConfig>) returns (r: Outcome<BuildError>)
    requires rep.Valid()
    modifies rep
    ensures rep.Valid() && Grows(old(rep.entities), rep.entities)
    ensures rep.schemaPropertiesMap == old(rep.schemaPropertiesMap)
    ensures r.Pass? <==> TypesProcessedOver(old(rep.entities), types, types, configs).Ok?
    ensures r.Pass? ==> rep.entities == TypesProcessedOver(old(rep.entities), types, types, configs).value
    ensures r.Fail? ==> r.error == TypesProcessedOver(old(rep.entities), types, types, configs).error
    ensures r.Pass? ==> rep.order == old(rep.order) + TypesCreatedOver(old(rep.entities), types, types, configs)
  {
    ghost var outcome := TypesProcessedOver(rep.entities, types, types, configs);
    var k := 0;
    while k < |types|
      invariant 0 <= k <= |types|
      invariant rep.Valid() && Grows(old(rep.entities), rep.entities)
      invariant rep.schemaPropertiesMap == old(rep.schemaPropertiesMap)
      invariant outcome == TypesProcessedOver(rep.entities, types[k..], types, configs)
      invariant rep.order + TypesCreatedOver(rep.entities, types[k..], types, configs)
                == old(rep.order) + TypesCreatedOver(old(rep.entities), types, types, configs)
    {
      ghost var before := rep.entities;
      ghost var ordered := rep.order;
      TypesProcessedOverNext(before, types, k, types, configs);
      TypesCreatedOverNext(before, types, k, types, configs);
      r := ProcessType(rep, types, configs, k);
      GrowsTransitive(old(rep.entities), before, rep.entities);
      if r.Fail? {
        return;
      }
      AppendAssociates(ordered, TypeCreated(before, types[k], types, configs),
                       TypesCreatedOver(rep.entities, types[k + 1..], types, configs));
      k := k + 1;
    }
    assert types[k..] == [];
    assert rep.order + [] == rep.order;
    r := Pass;
  }

  /** Builds the representation: processes the types, then fills the alias-path table
      from the records in creation order, which `CreationOrder` gives. */
  method BuildSchemaObjectRepresentation(types: TypeMap, configs: seq<ModuleConfig>)
    returns (rep: ObjectRepresentation, r: Outcome<BuildError>)
    ensures fresh(rep) && rep.Valid()
    ensures r.Pass? <==> TypesProcessed(types, configs).Ok?
                         && AliasTable(rep.entities, rep.order, |rep.order|, |rep.entities| + 1).Ok?
    ensures TypesProcessed(types, configs).Err? ==> r == Fail(TypesProcessed(types, configs).error)
    ensures TypesProcessed(types, configs).Ok? ==> rep.entities == TypesProcessed(types, configs).value
    ensures TypesProcessed(types, configs).Ok? ==> rep.order == CreationOrder(types, configs)
    ensures TypesProcessed(types, configs).Ok? && r.Fail? ==>
              r.error == AliasTable(rep.entities, rep.order, |rep.order|, |rep.entities| + 1).error
    ensures r.Pass? ==> AliasTable(rep.entities, rep.order, |rep.order|, |rep.entities| + 1) == Ok(rep.schemaPropertiesMap)
    ensures r.Pass? ==> Processed(rep.entities, types, |types|)
    ensures r.Pass? ==> TableSound(rep.entities, rep.schemaPropertiesMap)
    ensures r.Pass? ==> forall n :: n in rep.entities ==> rep.entities[n].alias in rep.schemaPropertiesMap
  {
    rep := new ObjectRepresentation();
    r := ProcessTypes(rep, types, configs);
    if r.Fail? {
      return;
    }
    TypesProcessedResolves(types, configs);
    assert [] + CreationOrder(types, configs) == CreationOrder(types, configs);
    r := StoreAliasMap(rep);
  }

  /** `_schemaPropertiesMap = buildAliasMap(objectRepresentation)`: the table over the
      finished records, stored on the representation when it can be built. */
  method StoreAliasMap(rep: ObjectRepresentation) returns (r: Outcome<BuildError>)
    requires rep.Valid()
    modifies rep
    ensures rep.Valid() && rep.entities == old(rep.entities) && rep.order == old(rep.order)
    ensures r.Pass? <==> AliasTable(rep.entities, rep.order, |rep.order|, |rep.entities| + 1).Ok?
    ensures r.Fail? ==> r.error == AliasTable(rep.entities, rep.order, |rep.order|, |rep.entities| + 1).error
    ensures r.Pass? ==> AliasTable(rep.entities, rep.order, |rep.order|, |rep.entities| + 1) == Ok(rep.schemaPropertiesMap)
    ensures r.Pass? ==> TableSound(rep.entities, rep.schemaPropertiesMap)
    ensures r.Pass? ==> forall n :: n in rep.entities ==> rep.entities[n].alias in rep.schemaPropertiesMap
  {
    var table := BuildAliasMap(rep.entities, rep.order);
    if table.Err? {
      return Fail(table.error);
    }
    rep.schemaPropertiesMap := table.value;
    AliasTableSound(rep.entities, rep.order, |rep.order|, |rep.entities| + 1);
    BareAliasesListed(rep.entities, rep.order, table.value);
    return Pass;
  }
}
