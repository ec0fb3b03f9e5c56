/** The alias-path table: every dotted path by which a record can be reached from a
    root, walking parent links from the record upwards, and the table that maps each
    path to the record it leads to. */
module AliasMap {
  import opened Wrappers
  import opened Text
  import opened CatalogErrors
  import opened Representation

  /** One path the walk yields; `shortCutOf` is set on a path through a schema parent
      that abbreviates a path through a link module. */
  datatype AliasPath = AliasPath(alias: string, shortCutOf: Option<string>)

  /** The paths through the record's parents followed by the record's own path:
      its alias with the path walked so far appended. The fuel runs out only on a cycle
      of parent links. */
  function AliasPaths(nodes: Arena, name: string, alias: string, fuel: nat): (r: Result<seq<AliasPath>, BuildError>)
    requires Closed(nodes) && name in nodes
    decreases fuel, 0
    ensures r.Ok? ==> |r.value| > 0 && r.value[|r.value| - 1] == AliasPath(DotJoin(nodes[name].alias, alias), None)
    ensures r.Ok? ==> ShortcutsAgree(r.value)
    ensures r.Err? ==> r.error.UnboundedAliasPath?
  {
    if fuel == 0 then Err(UnboundedAliasPath(name))
    else
      var ps := nodes[name].parents;
      match ParentsPaths(nodes, ps, |ps|, alias, fuel - 1)
      case Err(e) => Err(e)
      case Ok(paths) => Ok(paths + [AliasPath(DotJoin(nodes[name].alias, alias), None)])
  }

  /** The paths through the first `n` parent links, one link after the other. */
  function ParentsPaths(nodes: Arena, ps: seq<ParentLink>, n: nat, alias: string, fuel: nat)
    : (r: Result<seq<AliasPath>, BuildError>)
    requires Closed(nodes) && LinksInside(nodes, ps) && n <= |ps|
    decreases fuel, 2, n
    ensures r.Ok? ==> ShortcutsAgree(r.value)
    ensures r.Err? ==> r.error.UnboundedAliasPath?
  {
    if n == 0 then Ok([])
    else
      match ParentsPaths(nodes, ps, n - 1, alias, fuel)
      case Err(e) => Err(e)
      case Ok(front) =>
        assert ps[n - 1] in ps;
        match ParentPaths(nodes, ps[n - 1], alias, fuel)
        case Err(e) => Err(e)
        case Ok(back) => Ok(front + back)
  }

  /** The paths through one parent link: the paths of the record it points at, stripped
      of their shortcut marks, and, for a link through a link module, the paths of the
      schema parent, each marked as a shortcut of the first of the former when the two
      start at the same root. */
  function ParentPaths(nodes: Arena, p: ParentLink, alias: string, fuel: nat): (r: Result<seq<AliasPath>, BuildError>)
    requires Closed(nodes) && LinksInside(nodes, [p])
    decreases fuel, 1
    ensures r.Ok? ==> ShortcutsAgree(r.value)
    ensures r.Err? ==> r.error.UnboundedAliasPath?
  {
    assert p in [p];
    var path := DotJoin(p.targetProp, alias);
    match AliasPaths(nodes, p.ref, path, fuel)
    case Err(e) => Err(e)
    case Ok(sub) =>
      if p.inSchemaRef.None? then Ok(Plain(sub))
      else
        match AliasPaths(nodes, p.inSchemaRef.value, path, fuel)
        case Err(e) => Err(e)
        case Ok(sc) => Ok(Plain(sub) + Shortcuts(sc, sub[0].alias))
  }

  /** The paths with their shortcut marks dropped. */
  function Plain(paths: seq<AliasPath>): (r: seq<AliasPath>)
    ensures |r| == |paths|
    ensures forall i :: 0 <= i < |r| ==> r[i] == AliasPath(paths[i].alias, None)
  {
    seq(|paths|, i requires 0 <= i < |paths| => AliasPath(paths[i].alias, None))
  }

  /** The paths marked as shortcuts of `canonical`, each only when it starts at the same
      root as `canonical`. */
  function Shortcuts(paths: seq<AliasPath>, canonical: string): (r: seq<AliasPath>)
    ensures |r| == |paths|
    ensures forall i :: 0 <= i < |r| ==> r[i].alias == paths[i].alias
    ensures forall i :: 0 <= i < |r| ==>
              (r[i].shortCutOf == Some(canonical) <==> FirstSegment(canonical) == FirstSegment(paths[i].alias))
    ensures forall i :: 0 <= i < |r| ==> r[i].shortCutOf.None? || r[i].shortCutOf == Some(canonical)
  {
    seq(|paths|, i requires 0 <= i < |paths| =>
      AliasPath(paths[i].alias,
                if FirstSegment(canonical) == FirstSegment(paths[i].alias) then Some(canonical) else None))
  }

  /** A path marked as a shortcut starts at the same root as the path it abbreviates. */
  ghost predicate ShortcutsAgree(paths: seq<AliasPath>)
  {
    forall i :: 0 <= i < |paths| && paths[i].shortCutOf.Some? ==>
      FirstSegment(paths[i].shortCutOf.value) == FirstSegment(paths[i].alias)
  }

  /** The table entry one path writes: the record, and the shortcut mark when it is a
      non-empty string. */
  function Entry(ref: string, p: AliasPath): PathEntry
  {
    if p.shortCutOf.Some? && p.shortCutOf.value != "" then PathEntry(ref, p.shortCutOf) else PathEntry(ref, None)
  }

  /** The table after writing the first `n` paths of `ref`, in order. */
  function Fill(m: map<string, PathEntry>, ref: string, paths: seq<AliasPath>, n: nat): map<string, PathEntry>
    requires n <= |paths|
    decreases n
  {
    if n == 0 then m
    else Fill(m, ref, paths, n - 1)[paths[n - 1].alias := Entry(ref, paths[n - 1])]
  }

  /** The table for the first `n` records of `names`, in order; later writes to a path
      replace earlier ones. */
  function AliasTable(nodes: Arena, names: seq<string>, n: nat, fuel: nat): (r: Result<map<string, PathEntry>, BuildError>)
    requires Closed(nodes) && (forall i :: 0 <= i < |names| ==> names[i] in nodes) && n <= |names|
    decreases n
  {
    if n == 0 then Ok(map[])
    else
      match AliasTable(nodes, names, n - 1, fuel)
      case Err(e) => Err(e)
      case Ok(m) =>
        match AliasPaths(nodes, names[n - 1], "", fuel)
        case Err(e) => Err(e)
        case Ok(ps) => Ok(Fill(m, names[n - 1], ps, |ps|))
  }

  /** A walk that fails on the first `i` parent links fails the same way on more of them. */
  lemma {:induction false} ParentsPathsPrefixErr(nodes: Arena, ps: seq<ParentLink>, alias: string, fuel: nat, i: nat, n: nat)
    requires Closed(nodes) && LinksInside(nodes, ps) && i <= n <= |ps|
    requires ParentsPaths(nodes, ps, i, alias, fuel).Err?
    ensures ParentsPaths(nodes, ps, n, alias, fuel) == ParentsPaths(nodes, ps, i, alias, fuel)
    decreases n
  {
    if i < n {
      ParentsPathsPrefixErr(nodes, ps, alias, fuel, i, n - 1);
    }
  }

  /** One more parent link extends the walk by that link's paths. */
  lemma ParentsPathsStep(nodes: Arena, ps: seq<ParentLink>, n: nat, alias: string, fuel: nat, front: seq<AliasPath>, back: seq<AliasPath>)
    requires Closed(nodes) && LinksInside(nodes, ps) && n < |ps|
    requires ParentsPaths(nodes, ps, n, alias, fuel) == Ok(front)
    requires LinksInside(nodes, [ps[n]]) && ParentPaths(nodes, ps[n], alias, fuel) == Ok(back)
    ensures ParentsPaths(nodes, ps, n + 1, alias, fuel) == Ok(front + back)
  {
  }

  /** A table that fails on the first `i` records fails the same way on more of them. */
  lemma {:induction false} AliasTablePrefixErr(nodes: Arena, names: seq<string>, fuel: nat, i: nat, n: nat)
    requires Closed(nodes) && (forall j :: 0 <= j < |names| ==> names[j] in nodes) && i <= n <= |names|
    requires AliasTable(nodes, names, i, fuel).Err?
    ensures AliasTable(nodes, names, n, fuel) == AliasTable(nodes, names, i, fuel)
    decreases n
  {
    if i < n {
      AliasTablePrefixErr(nodes, names, fuel, i, n - 1);
    }
  }

  /** Writing the paths adds exactly their aliases to the table's keys. */
  lemma {:induction false} FillKeys(m: map<string, PathEntry>, ref: string, paths: seq<AliasPath>, n: nat)
    requires n <= |paths|
    ensures Fill(m, ref, paths, n).Keys == m.Keys + set i | 0 <= i < n :: paths[i].alias
    decreases n
  {
    if n > 0 {
      FillKeys(m, ref, paths, n - 1);
      var s := set i | 0 <= i < n :: paths[i].alias;
      var sf := set i | 0 <= i < n - 1 :: paths[i].alias;
      assert s == sf + {paths[n - 1].alias} by {
        forall x | x in s ensures x in sf + {paths[n - 1].alias} {
          var i :| 0 <= i < n && paths[i].alias == x;
        }
      }
    }
  }

  /** A path's entry is the one its last write left: the entry of the last path with that
      alias. */
  lemma {:induction false} FillLastWrite(m: map<string, PathEntry>, ref: string, paths: seq<AliasPath>, n: nat, j: nat)
    requires j < n <= |paths| && forall k :: j < k < n ==> paths[k].alias != paths[j].alias
    ensures paths[j].alias in Fill(m, ref, paths, n)
    ensures Fill(m, ref, paths, n)[paths[j].alias] == Entry(ref, paths[j])
    decreases n
  {
    if j < n - 1 {
      FillLastWrite(m, ref, paths, n - 1, j);
    }
  }

  /** A path none of the written paths has keeps its earlier entry. */
  lemma {:induction false} FillUntouched(m: map<string, PathEntry>, ref: string, paths: seq<AliasPath>, n: nat, k: string)
    requires n <= |paths| && forall i :: 0 <= i < n ==> paths[i].alias != k
    ensures k in Fill(m, ref, paths, n) <==> k in m
    ensures k in m ==> Fill(m, ref, paths, n)[k] == m[k]
    decreases n
  {
    if n > 0 {
      FillUntouched(m, ref, paths, n - 1, k);
    }
  }

  /** Every entry of a table points at a record, and a shortcut mark is a non-empty path
      that starts at the same root as the path it is stored under. */
  ghost predicate TableSound(nodes: Arena, m: map<string, PathEntry>)
  {
    forall k :: k in m ==>
      && m[k].ref in nodes
      && (m[k].shortCutOf.Some? ==>
            m[k].shortCutOf.value != "" && FirstSegment(m[k].shortCutOf.value) == FirstSegment(k))
  }

  /** Writing the paths of a record keeps the table sound. */
  lemma {:induction false} FillSound(nodes: Arena, m: map<string, PathEntry>, ref: string, paths: seq<AliasPath>, n: nat)
    requires TableSound(nodes, m) && ref in nodes && ShortcutsAgree(paths) && n <= |paths|
    ensures TableSound(nodes, Fill(m, ref, paths, n))
    decreases n
  {
    if n > 0 {
      FillSound(nodes, m, ref, paths, n - 1);
    }
  }

  /** The table built for a run of records is sound. */
  lemma {:induction false} AliasTableSound(nodes: Arena, names: seq<string>, n: nat, fuel: nat)
    requires Closed(nodes) && (forall i :: 0 <= i < |names| ==> names[i] in nodes) && n <= |names|
    requires AliasTable(nodes, names, n, fuel).Ok?
    ensures TableSound(nodes, AliasTable(nodes, names, n, fuel).value)
    decreases n
  {
    if n > 0 {
      AliasTableSound(nodes, names, n - 1, fuel);
      var ps := AliasPaths(nodes, names[n - 1], "", fuel).value;
      FillSound(nodes, AliasTable(nodes, names, n - 1, fuel).value, names[n - 1], ps, |ps|);
    }
  }

  /** Keys are never removed as more records are written. */
  lemma {:induction false} AliasTableKeysGrow(nodes: Arena, names: seq<string>, fuel: nat, i: nat, n: nat)
    requires Closed(nodes) && (forall j :: 0 <= j < |names| ==> names[j] in nodes) && i <= n <= |names|
    requires AliasTable(nodes, names, n, fuel).Ok?
    ensures AliasTable(nodes, names, i, fuel).Ok?
    ensures AliasTable(nodes, names, i, fuel).value.Keys <= AliasTable(nodes, names, n, fuel).value.Keys
    decreases n
  {
    if i < n {
      AliasTableKeysGrow(nodes, names, fuel, i, n - 1);
      var ps := AliasPaths(nodes, names[n - 1], "", fuel).value;
      FillKeys(AliasTable(nodes, names, n - 1, fuel).value, names[n - 1], ps, |ps|);
    }
  }

  /** Every path of every record written is a key of the table: in particular each
      record's bare alias, the last path its walk yields. */
  lemma AliasTableHasPaths(nodes: Arena, names: seq<string>, n: nat, fuel: nat, i: nat)
    requires Closed(nodes) && (forall j :: 0 <= j < |names| ==> names[j] in nodes) && n <= |names|
    requires i < n && AliasTable(nodes, names, n, fuel).Ok?
    ensures AliasPaths(nodes, names[i], "", fuel).Ok?
    ensures forall p :: p in AliasPaths(nodes, names[i], "", fuel).value ==>
              p.alias in AliasTable(nodes, names, n, fuel).value
    ensures nodes[names[i]].alias in AliasTable(nodes, names, n, fuel).value
  {
    AliasTableKeysGrow(nodes, names, fuel, i + 1, n);
    var ps := AliasPaths(nodes, names[i], "", fuel).value;
    FillKeys(AliasTable(nodes, names, i, fuel).value, names[i], ps, |ps|);
    forall p | p in ps ensures p.alias in AliasTable(nodes, names, n, fuel).value {
      var k :| 0 <= k < |ps| && ps[k] == p;
    }
    assert ps[|ps| - 1] in ps;
  }

  /** The walk from a record passes through each of its parent links: every path of the
      record the link points at, continued by the link's property name, is among the
      record's paths, unmarked; in particular the one ending at the parent's own alias.
      Applied again to that record, this covers every ancestor up the chain. */
  lemma ParentPathListed(nodes: Arena, name: string, alias: string, fuel: nat, j: nat)
    requires Closed(nodes) && name in nodes && j < |nodes[name].parents|
    requires AliasPaths(nodes, name, alias, fuel).Ok?
    ensures var p := nodes[name].parents[j];
            && p.ref in nodes && fuel > 0
            && AliasPaths(nodes, p.ref, DotJoin(p.targetProp, alias), fuel - 1).Ok?
            && (forall q :: q in AliasPaths(nodes, p.ref, DotJoin(p.targetProp, alias), fuel - 1).value
                  ==> AliasPath(q.alias, None) in AliasPaths(nodes, name, alias, fuel).value)
            && AliasPath(DotJoin(nodes[p.ref].alias, DotJoin(p.targetProp, alias)), None)
                 in AliasPaths(nodes, name, alias, fuel).value
  {
    var ps := nodes[name].parents;
    assert LinksInside(nodes, ps);
    ParentsPathsListed(nodes, ps, |ps|, alias, fuel - 1, j);
    var p := ps[j];
    var sub := AliasPaths(nodes, p.ref, DotJoin(p.targetProp, alias), fuel - 1).value;
    assert sub[|sub| - 1] in sub;
  }

  lemma {:induction false} ParentsPathsListed(nodes: Arena, ps: seq<ParentLink>, n: nat, alias: string, fuel: nat, j: nat)
    requires Closed(nodes) && LinksInside(nodes, ps) && j < n <= |ps|
    requires ParentsPaths(nodes, ps, n, alias, fuel).Ok?
    ensures ps[j].ref in nodes
    ensures AliasPaths(nodes, ps[j].ref, DotJoin(ps[j].targetProp, alias), fuel).Ok?
    ensures forall q :: q in AliasPaths(nodes, ps[j].ref, DotJoin(ps[j].targetProp, alias), fuel).value
              ==> AliasPath(q.alias, None) in ParentsPaths(nodes, ps, n, alias, fuel).value
    decreases n
  {
    assert ps[j] in ps;
    if j < n - 1 {
      ParentsPathsListed(nodes, ps, n - 1, alias, fuel, j);
    } else {
      var p := ps[j];
      assert LinksInside(nodes, [p]);
      var sub := AliasPaths(nodes, p.ref, DotJoin(p.targetProp, alias), fuel).value;
      var back := ParentPaths(nodes, p, alias, fuel).value;
      var front := ParentsPaths(nodes, ps, n - 1, alias, fuel).value;
      assert ParentsPaths(nodes, ps, n, alias, fuel).value == front + back;
      forall q | q in sub
        ensures AliasPath(q.alias, None) in front + back
      {
        var t :| 0 <= t < |sub| && sub[t] == q;
        assert back[t] == AliasPath(sub[t].alias, None);
        assert (front + back)[|front| + t] == back[t];
      }
    }
  }

  /** Record `names[i]` writes the key `k`: its walk yields a path with that alias. */
  ghost predicate Writes(nodes: Arena, names: seq<string>, fuel: nat, i: nat, k: string)
    requires Closed(nodes) && i < |names| && names[i] in nodes
  {
    AliasPaths(nodes, names[i], "", fuel).Ok?
    && exists p :: p in AliasPaths(nodes, names[i], "", fuel).value && p.alias == k
  }

  /** The table's keys are exactly the paths the records yield: nothing else is ever
      written. */
  lemma {:induction false} AliasTableKeys(nodes: Arena, names: seq<string>, n: nat, fuel: nat, k: string)
    requires Closed(nodes) && (forall j :: 0 <= j < |names| ==> names[j] in nodes) && n <= |names|
    requires AliasTable(nodes, names, n, fuel).Ok?
    ensures k in AliasTable(nodes, names, n, fuel).value <==> exists i :: 0 <= i < n && Writes(nodes, names, fuel, i, k)
    decreases n
  {
    if n > 0 {
      AliasTableKeys(nodes, names, n - 1, fuel, k);
      var ps := AliasPaths(nodes, names[n - 1], "", fuel).value;
      FillKeys(AliasTable(nodes, names, n - 1, fuel).value, names[n - 1], ps, |ps|);
      if Writes(nodes, names, fuel, n - 1, k) {
        var p :| p in ps && p.alias == k;
        var t :| 0 <= t < |ps| && ps[t] == p;
      }
      if k in set t | 0 <= t < |ps| :: ps[t].alias {
        var t :| 0 <= t < |ps| && ps[t].alias == k;
        assert ps[t] in ps;
        assert Writes(nodes, names, fuel, n - 1, k);
      }
    }
  }

  /** A key's entry is the one its last writer left: the last path with that alias of the
      last record, in creation order, whose walk yields it. */
  lemma {:induction false} AliasTableLastWrite(nodes: Arena, names: seq<string>, n: nat, fuel: nat, i: nat, j: nat)
    requires Closed(nodes) && (forall l :: 0 <= l < |names| ==> names[l] in nodes) && i < n <= |names|
    requires AliasTable(nodes, names, n, fuel).Ok? && AliasPaths(nodes, names[i], "", fuel).Ok?
    requires var ps := AliasPaths(nodes, names[i], "", fuel).value;
             && j < |ps|
             && (forall l :: j < l < |ps| ==> ps[l].alias != ps[j].alias)
             && (forall m :: i < m < n ==> !Writes(nodes, names, fuel, m, ps[j].alias))
    ensures var ps := AliasPaths(nodes, names[i], "", fuel).value;
            && ps[j].alias in AliasTable(nodes, names, n, fuel).value
            && AliasTable(nodes, names, n, fuel).value[ps[j].alias] == Entry(names[i], ps[j])
    decreases n
  {
    var ps := AliasPaths(nodes, names[i], "", fuel).value;
    var m := AliasTable(nodes, names, n - 1, fuel).value;
    if i == n - 1 {
      FillLastWrite(m, names[i], ps, |ps|, j);
    } else {
      AliasTableLastWrite(nodes, names, n - 1, fuel, i, j);
      var later := AliasPaths(nodes, names[n - 1], "", fuel).value;
      assert !Writes(nodes, names, fuel, n - 1, ps[j].alias);
      forall t | 0 <= t < |later| ensures later[t].alias != ps[j].alias {
        assert later[t] in later;
      }
      FillUntouched(m, names[n - 1], later, |later|, ps[j].alias);
    }
  }

  /** `recursivelyBuildAliasPath`: the paths through each parent link in turn, then the
      record's own path. */
  method BuildAliasPath(nodes: Arena, name: string, alias: string, fuel: nat) returns (r: Result<seq<AliasPath>, BuildError>)
    requires Closed(nodes) && name in nodes
    decreases fuel, 0
    ensures r == AliasPaths(nodes, name, alias, fuel)
  {
    if fuel == 0 {
      return Err(UnboundedAliasPath(name));
    }
    var aliases := BuildParentsPaths(nodes, nodes[name].parents, alias, fuel - 1);
    if aliases.Err? {
      return aliases;
    }
    return Ok(aliases.value + [AliasPath(DotJoin(nodes[name].alias, alias), None)]);
  }

  /** The loop of `recursivelyBuildAliasPath` over the parent links. */
  method BuildParentsPaths(nodes: Arena, parents: seq<ParentLink>, alias: string, fuel: nat) returns (r: Result<seq<AliasPath>, BuildError>)
    requires Closed(nodes) && LinksInside(nodes, parents)
    decreases fuel, 2
    ensures r == ParentsPaths(nodes, parents, |parents|, alias, fuel)
  {
    var aliases: seq<AliasPath> := [];
    var i := 0;
    while i < |parents|
      invariant 0 <= i <= |parents|
      invariant ParentsPaths(nodes, parents, i, alias, fuel) == Ok(aliases)
    {
      assert parents[i] in parents;
      var back := BuildParentPaths(nodes, parents[i], alias, fuel);
      if back.Err? {
        ParentsPathsPrefixErr(nodes, parents, alias, fuel, i + 1, |parents|);
        return Err(back.error);
      }
      ParentsPathsStep(nodes, parents, i, alias, fuel, aliases, back.value);
      aliases := aliases + back.value;
      i := i + 1;
    }
    return Ok(aliases);
  }

  /** The loop body of `recursivelyBuildAliasPath` for one parent link: the paths of the
      record it points at, stripped of their shortcut marks, then, through a link module,
      those of the schema parent marked as shortcuts of the first of them. */
  method BuildParentPaths(nodes: Arena, p: ParentLink, alias: string, fuel: nat) returns (r: Result<seq<AliasPath>, BuildError>)
    requires Closed(nodes) && LinksInside(nodes, [p])
    decreases fuel, 1
    ensures r == ParentPaths(nodes, p, alias, fuel)
  {
    assert p in [p];
    var path := DotJoin(p.targetProp, alias);
    var sub := BuildAliasPath(nodes, p.ref, path, fuel);
    if sub.Err? {
      return Err(sub.error);
    }
    if p.inSchemaRef.None? {
      return Ok(Plain(sub.value));
    }
    var shortCut := BuildAliasPath(nodes, p.inSchemaRef.value, path, fuel);
    if shortCut.Err? {
      return Err(shortCut.error);
    }
    return Ok(Plain(sub.value) + Shortcuts(shortCut.value, sub.value[0].alias));
  }

  /** `buildAliasMap`: the paths of every record, in creation order, written into a
      fresh table; a later write to a path replaces the earlier one. */
  method BuildAliasMap(nodes: Arena, order: seq<string>) returns (r: Result<map<string, PathEntry>, BuildError>)
    requires Closed(nodes) && forall i :: 0 <= i < |order| ==> order[i] in nodes
    ensures r == AliasTable(nodes, order, |order|, |nodes| + 1)
  {
    var fuel := |nodes| + 1;
    var table: map<string, PathEntry> := map[];
    var i := 0;
    while i < |order|
      invariant 0 <= i <= |order|
      invariant AliasTable(nodes, order, i, fuel) == Ok(table)
    {
      var name := order[i];
      var paths := BuildAliasPath(nodes, name, "", fuel);
      if paths.Err? {
        AliasTablePrefixErr(nodes, order, fuel, i + 1, |order|);
        return Err(paths.error);
      }
      table := WritePaths(table, name, paths.value);
      i := i + 1;
    }
    return Ok(table);
  }

  /** The inner loop of `buildAliasMap`: each path of one record written in turn. */
  method WritePaths(m: map<string, PathEntry>, name: string, paths: seq<AliasPath>) returns (table: map<string, PathEntry>)
    ensures table == Fill(m, name, paths, |paths|)
  {
    table := m;
    var j := 0;
    while j < |paths|
      invariant 0 <= j <= |paths|
      invariant table == Fill(m, name, paths, j)
    {
      var p := paths[j];
      if p.shortCutOf.Some? && p.shortCutOf.value != "" {
        table := table[p.alias := PathEntry(name, p.shortCutOf)];
      } else {
        table := table[p.alias := PathEntry(name, None)];
      }
      j := j + 1;
    }
  }
}
