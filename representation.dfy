/** The in-memory representation the builder produces: one record per entity, kept in
    an arena keyed by entity name, and the alias-path table built from it. */
module Representation {
  import opened Wrappers
  import opened JoinerConfig

  /** A link to a parent record. `ref` is the record the graph is walked through;
      `inSchemaRef` is the parent as the schema declares it, present only on links that
      go through a link module. `isList` is absent on a link node's own parent entry. */
  datatype ParentLink = ParentLink(
    ref: string,
    targetProp: string,
    isList: Option<bool>,
    inSchemaRef: Option<string>)

  /** One entity record; `moduleConfig` is `None` until the entity is resolved. */
  datatype EntityRep = EntityRep(
    entity: string,
    alias: string,
    parents: seq<ParentLink>,
    listeners: seq<string>,
    moduleConfig: Option<ModuleConfig>,
    fields: seq<string>)

  /** An entry of the alias-path table: the record a dotted path leads to, and the
      canonical path it abbreviates when it is a shortcut. */
  datatype PathEntry = PathEntry(ref: string, shortCutOf: Option<string>)

  /** The records, addressed by entity name: a parent link holds a name, not the record. */
  type Arena = map<string, EntityRep>

  /** The record a first access creates. */
  function FreshRep(name: string): EntityRep
  {
    EntityRep(name, "", [], [], None, [])
  }

  /** `objectRepresentationRef[name] ??= {...}`: the record for `name`, created when missing. */
  function GetOrInsert(nodes: Arena, name: string): Arena
  {
    if name in nodes then nodes else nodes[name := FreshRep(name)]
  }

  /** The name `GetOrInsert` adds to the creation order when `known` are the names with
      a record: itself when it was missing. */
  function Inserted(known: set<string>, name: string): (r: seq<string>)
    ensures r == [] <==> name in known
  {
    if name in known then [] else [name]
  }

  /** Creating a record adds no dangling link, keeps every record under its own name,
      and keeps every existing record. */
  lemma GetOrInsertKeeps(nodes: Arena, name: string)
    ensures name in GetOrInsert(nodes, name) && GetOrInsert(nodes, name).Keys == nodes.Keys + {name}
    ensures forall n :: n in nodes ==> GetOrInsert(nodes, name)[n] == nodes[n]
    ensures name !in nodes ==> GetOrInsert(nodes, name)[name] == FreshRep(name)
    ensures Closed(nodes) ==> Closed(GetOrInsert(nodes, name))
    ensures WellKeyed(nodes) ==> WellKeyed(GetOrInsert(nodes, name))
    ensures Grows(nodes, GetOrInsert(nodes, name))
  {
    if name !in nodes {
      PutRecord(nodes, name, FreshRep(name));
    }
  }

  /** A second access by the same name finds the record the first one left. */
  lemma GetOrInsertIdempotent(nodes: Arena, name: string)
    ensures GetOrInsert(GetOrInsert(nodes, name), name) == GetOrInsert(nodes, name)
  {
  }

  /** No dangling link, and every record stored under its own name. */
  ghost predicate Sound(nodes: Arena)
  {
    Closed(nodes) && WellKeyed(nodes)
  }

  /** Every record a link points at is in the arena. */
  predicate LinksInside(nodes: Arena, ps: seq<ParentLink>)
  {
    forall p :: p in ps ==> p.ref in nodes && (p.inSchemaRef.Some? ==> p.inSchemaRef.value in nodes)
  }

  /** The arena has no dangling parent links. */
  predicate Closed(nodes: Arena)
  {
    forall n {:trigger nodes[n]} :: n in nodes ==> LinksInside(nodes, nodes[n].parents)
  }

  /** Every record is stored under its own entity name. */
  predicate WellKeyed(nodes: Arena)
  {
    forall n :: n in nodes ==> nodes[n].entity == n
  }

  /** From `before` to `after` no record disappears and no resolved record loses its module. */
  predicate Grows(before: Arena, after: Arena)
  {
    forall n :: n in before ==> n in after && (before[n].moduleConfig.Some? ==> after[n].moduleConfig.Some?)
  }

  /** Storing a record under its name keeps each invariant the record itself respects. */
  lemma PutRecord(nodes: Arena, name: string, rec: EntityRep)
    ensures Closed(nodes) && LinksInside(nodes, rec.parents) ==> Closed(nodes[name := rec])
    ensures WellKeyed(nodes) && rec.entity == name ==> WellKeyed(nodes[name := rec])
    ensures (name in nodes && nodes[name].moduleConfig.Some? ==> rec.moduleConfig.Some?) ==>
              Grows(nodes, nodes[name := rec])
  {
    var m := nodes[name := rec];
    if Closed(nodes) && LinksInside(nodes, rec.parents) {
      forall n | n in m
        ensures LinksInside(m, m[n].parents)
      {
        var ps := if n == name then rec.parents else nodes[n].parents;
        assert LinksInside(nodes, ps);
        assert m[n].parents == ps;
      }
    }
  }

  lemma GrowsTransitive(a: Arena, b: Arena, c: Arena)
    requires Grows(a, b) && Grows(b, c)
    ensures Grows(a, c)
  {
  }
}
