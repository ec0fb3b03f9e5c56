/** The compiled GraphQL type map the builder reads, as plain data: each declaration
    carries its AST kind, its directives and its fields. */
module Schema {
  import opened Wrappers

  /** A field type: a named type, a list `[T]` or a non-null `T!`. */
  datatype TypeRef = Named(name: string) | ListOf(elem: TypeRef) | NonNull(inner: TypeRef)

  datatype FieldDef = FieldDef(name: string, ty: TypeRef)

  /** The value of a directive argument: a list of strings (`values: ["a", "b"]`)
      or any other value, which has no `values`. */
  datatype ArgValue = ListValue(values: seq<string>) | OtherValue

  datatype DirectiveNode = DirectiveNode(name: string, arguments: seq<ArgValue>)

  /** `astNode` absent (built-in types), an object type definition, or another definition. */
  datatype DeclKind = NoAstNode | ObjectTypeDefinition | OtherDefinition

  /** One entry of the type map. `projection` is the field list computed for the type
      by the field-and-relation helper of the modules SDK, taken here as given. */
  datatype TypeDecl = TypeDecl(
    name: string,
    kind: DeclKind,
    directives: seq<DirectiveNode>,
    fields: seq<FieldDef>,
    projection: seq<string>)

  /** The values of a type map, in iteration order. */
  type TypeMap = seq<TypeDecl>

  /** `field.type.type.name.value`: the name one wrapper below the field's type. Only
      `[X]` and `X!` reach a name this way; `X` and `[X!]` do not. */
  function WrappedName(t: TypeRef): (r: Option<string>)
    ensures r.Some? <==> (t.ListOf? && t.elem.Named?) || (t.NonNull? && t.inner.Named?)
  {
    match t
    case ListOf(Named(n)) => Some(n)
    case NonNull(Named(n)) => Some(n)
    case _ => None
  }

  predicate IsFieldOf(f: FieldDef, entity: string)
  {
    WrappedName(f.ty) == Some(entity)
  }

  predicate HasFieldOf(d: TypeDecl, entity: string)
  {
    exists i :: 0 <= i < |d.fields| && IsFieldOf(d.fields[i], entity)
  }

  /** `fields.find(...)`: the first field of the declaration whose type wraps `entity`. */
  function FieldOf(fields: seq<FieldDef>, entity: string): (r: Option<nat>)
    ensures r.None? <==> forall i :: 0 <= i < |fields| ==> !IsFieldOf(fields[i], entity)
    ensures r.Some? ==> r.value < |fields| && IsFieldOf(fields[r.value], entity)
    ensures r.Some? ==> forall j :: 0 <= j < r.value ==> !IsFieldOf(fields[j], entity)
  {
    if fields == [] then None
    else if IsFieldOf(fields[0], entity) then Some(0)
    else match FieldOf(fields[1..], entity)
      case None => None
      case Some(k) => Some(k + 1)
  }

  /** A declaration with an AST node and a field whose type wraps `entity`. */
  predicate IsSchemaParent(d: TypeDecl, entity: string)
  {
    d.kind != NoAstNode && HasFieldOf(d, entity)
  }

  /** The schema parents of `entity`, in type-map order. */
  function SchemaParents(types: TypeMap, entity: string): (r: seq<TypeDecl>)
    ensures |r| <= |types|
    ensures forall i :: 0 <= i < |r| ==> IsSchemaParent(r[i], entity)
  {
    if types == [] then []
    else (if IsSchemaParent(types[0], entity) then [types[0]] else []) + SchemaParents(types[1..], entity)
  }

  /** A declaration is listed exactly when it is in the type map and is a schema parent. */
  lemma {:induction false} SchemaParentsMembers(types: TypeMap, entity: string, d: TypeDecl)
    ensures d in SchemaParents(types, entity) <==> d in types && IsSchemaParent(d, entity)
  {
    if types != [] {
      SchemaParentsMembers(types[1..], entity, d);
      assert d in types <==> d == types[0] || d in types[1..];
    }
  }

  /** The schema parents keep the type map's order and multiplicity: over a type map made
      of two parts, they are the first part's followed by the second part's. */
  lemma {:induction false} SchemaParentsAppend(a: TypeMap, b: TypeMap, entity: string)
    ensures SchemaParents(a + b, entity) == SchemaParents(a, entity) + SchemaParents(b, entity)
  {
    if a != [] {
      var head := if IsSchemaParent(a[0], entity) then [a[0]] else [];
      assert (a + b)[0] == a[0] && (a + b)[1..] == a[1..] + b;
      assert SchemaParents(a + b, entity) == head + SchemaParents(a[1..] + b, entity);
      SchemaParentsAppend(a[1..], b, entity);
      assert SchemaParents(a, entity) == head + SchemaParents(a[1..], entity);
      assert head + (SchemaParents(a[1..], entity) + SchemaParents(b, entity))
          == (head + SchemaParents(a[1..], entity)) + SchemaParents(b, entity);
    } else {
      assert a + b == b;
    }
  }

  /** A single declaration is listed once when it is a schema parent, and not at all otherwise. */
  lemma SchemaParentsSingle(d: TypeDecl, entity: string)
    ensures SchemaParents([d], entity) == if IsSchemaParent(d, entity) then [d] else []
  {
    assert [d][1..] == [];
  }

  /** `entitiesMap[name]` is defined. */
  predicate Declares(types: TypeMap, name: string)
  {
    exists i :: 0 <= i < |types| && types[i].name == name
  }
}
