/** Looking up the alias a module declares for an entity (build-config.ts, retrieveAliasForEntity). */
module AliasLookup {
  import opened Wrappers
  import opened Text
  import opened JoinerConfig

  /** One alias entry after array names are expanded: a name and the `args` entity. */
  datatype AliasEntry = AliasEntry(name: string, entity: string)

  /** One declaration, one entry per name, in order. */
  function Expand(d: AliasDecl): (r: seq<AliasEntry>)
    ensures d.name.OneName? ==> r == [AliasEntry(d.name.name, d.entity)]
    ensures d.name.ManyNames? ==> |r| == |d.name.names|
    ensures d.name.ManyNames? ==> forall i :: 0 <= i < |r| ==> r[i] == AliasEntry(d.name.names[i], d.entity)
  {
    match d.name
    case OneName(n) => [AliasEntry(n, d.entity)]
    case ManyNames(ns) => seq(|ns|, i requires 0 <= i < |ns| => AliasEntry(ns[i], d.entity))
  }

  /** `.map(...).flat()` over declarations. */
  function ExpandAll(ds: seq<AliasDecl>): seq<AliasEntry>
  {
    if ds == [] then [] else Expand(ds[0]) + ExpandAll(ds[1..])
  }

  /** `.filter(Boolean)`: the null entries of an alias array are dropped. */
  function Present(ds: seq<Option<AliasDecl>>): (r: seq<AliasDecl>)
    ensures forall d :: d in r <==> Some(d) in ds
  {
    if ds == [] then []
    else (if ds[0].Some? then [ds[0].value] else []) + Present(ds[1..])
  }

  /** The `alias` property normalised to an array, nulls dropped, names expanded. */
  function Flatten(a: Aliases): seq<AliasEntry>
  {
    match a
    case NoAliases => []
    case OneAlias(d) => Expand(d)
    case AliasList(ds) => ExpandAll(Present(ds))
  }

  /** `args.entity || name`. */
  function EntityOf(x: AliasEntry): string
  {
    if x.entity != "" then x.entity else x.name
  }

  predicate Matches(x: AliasEntry, entityName: string)
  {
    EntityOf(x) != "" && EqualIgnoringCase(EntityOf(x), entityName)
  }

  /** `.find(...)`: the index of the first entry matching the entity. */
  function FirstMatch(xs: seq<AliasEntry>, entityName: string): (r: Option<nat>)
    ensures r.None? <==> forall i :: 0 <= i < |xs| ==> !Matches(xs[i], entityName)
    ensures r.Some? ==> r.value < |xs| && Matches(xs[r.value], entityName)
    ensures r.Some? ==> forall j :: 0 <= j < r.value ==> !Matches(xs[j], entityName)
  {
    if xs == [] then None
    else if Matches(xs[0], entityName) then Some(0)
    else match FirstMatch(xs[1..], entityName)
      case None => None
      case Some(k) => Some(k + 1)
  }

  /** The name of the first flattened alias entry whose entity (or, failing that, name)
      equals `entityName` ignoring case; `None` when no entry does. */
  function RetrieveAliasForEntity(entityName: string, aliases: Aliases): (r: Option<string>)
    ensures r.None? <==> forall x :: x in Flatten(aliases) ==> !Matches(x, entityName)
    ensures r.Some? ==> exists k :: 0 <= k < |Flatten(aliases)|
                           && Matches(Flatten(aliases)[k], entityName)
                           && r.value == Flatten(aliases)[k].name
                           && forall j :: 0 <= j < k ==> !Matches(Flatten(aliases)[j], entityName)
  {
    var xs := Flatten(aliases);
    match FirstMatch(xs, entityName)
    case None => None
    case Some(k) => Some(xs[k].name)
  }

  /** An alias the callers accept: present and non-empty (`!alias` fails otherwise). */
  predicate Truthy(a: Option<string>)
  {
    a.Some? && a.value != ""
  }

  /** The lookup depends on the entity name only up to letter case. */
  lemma {:induction false} AliasLookupIgnoresCase(e1: string, e2: string, aliases: Aliases)
    requires EqualIgnoringCase(e1, e2)
    ensures RetrieveAliasForEntity(e1, aliases) == RetrieveAliasForEntity(e2, aliases)
  {
    FirstMatchIgnoresCase(Flatten(aliases), e1, e2);
  }

  lemma {:induction false} FirstMatchIgnoresCase(xs: seq<AliasEntry>, e1: string, e2: string)
    requires EqualIgnoringCase(e1, e2)
    ensures FirstMatch(xs, e1) == FirstMatch(xs, e2)
  {
    if xs != [] {
      var x := EntityOf(xs[0]);
      EqualIgnoringCaseSymmetric(e1, e2);
      if EqualIgnoringCase(x, e1) { EqualIgnoringCaseTransitive(x, e1, e2); }
      if EqualIgnoringCase(x, e2) { EqualIgnoringCaseTransitive(x, e2, e1); }
      assert Matches(xs[0], e1) <==> Matches(xs[0], e2);
      FirstMatchIgnoresCase(xs[1..], e1, e2);
    }
  }

  lemma {:induction false} PresentAppend(ds: seq<Option<AliasDecl>>, es: seq<Option<AliasDecl>>)
    ensures Present(ds + es) == Present(ds) + Present(es)
  {
    if ds != [] {
      assert (ds + es)[0] == ds[0];
      assert (ds + es)[1..] == ds[1..] + es;
      PresentAppend(ds[1..], es);
    } else {
      assert ds + es == es;
    }
  }

  /** A null entry anywhere in an alias array changes nothing. */
  lemma NullAliasEntriesIgnored(ds: seq<Option<AliasDecl>>, es: seq<Option<AliasDecl>>)
    ensures Flatten(AliasList(ds + [None] + es)) == Flatten(AliasList(ds + es))
  {
    PresentAppend(ds + [None], es);
    PresentAppend(ds, [None]);
    PresentAppend(ds, es);
    var nul: seq<Option<AliasDecl>> := [None];
    assert nul[1..] == [];
    assert Present(nul) == [];
    assert Present(ds + [None]) == Present(ds);
  }

  lemma {:induction false} ExpandAllAppend(ds: seq<AliasDecl>, es: seq<AliasDecl>)
    ensures ExpandAll(ds + es) == ExpandAll(ds) + ExpandAll(es)
  {
    if ds != [] {
      assert (ds + es)[0] == ds[0];
      assert (ds + es)[1..] == ds[1..] + es;
      ExpandAllAppend(ds[1..], es);
    } else {
      assert ds + es == es;
    }
  }

  /** A single alias declaration behaves as an array holding only it. */
  lemma SingleAliasIsOneElementArray(d: AliasDecl, entityName: string)
    ensures RetrieveAliasForEntity(entityName, OneAlias(d)) == RetrieveAliasForEntity(entityName, AliasList([Some(d)]))
  {
    assert [Some(d)][1..] == [];
    assert Present([Some(d)]) == [d];
    assert [d][1..] == [];
    assert ExpandAll([d]) == Expand(d) + ExpandAll([]);
    assert Flatten(OneAlias(d)) == Flatten(AliasList([Some(d)]));
  }

  /** Declarations are searched in order: the lookup over `ds + es` takes the match in `ds`
      when there is one, and otherwise the lookup over `es`. */
  lemma AliasLookupIsFirstMatch(ds: seq<Option<AliasDecl>>, es: seq<Option<AliasDecl>>, entityName: string)
    ensures RetrieveAliasForEntity(entityName, AliasList(ds + es)) ==
            if RetrieveAliasForEntity(entityName, AliasList(ds)).Some?
            then RetrieveAliasForEntity(entityName, AliasList(ds))
            else RetrieveAliasForEntity(entityName, AliasList(es))
  {
    var xs := ExpandAll(Present(ds));
    var ys := ExpandAll(Present(es));
    PresentAppend(ds, es);
    ExpandAllAppend(Present(ds), Present(es));
    assert Flatten(AliasList(ds + es)) == xs + ys;
    FirstMatchAppend(xs, ys, entityName);
    match FirstMatch(xs, entityName)
    case Some(k) =>
      assert (xs + ys)[k] == xs[k];
    case None =>
      match FirstMatch(ys, entityName)
      case None =>
      case Some(k) =>
        assert (xs + ys)[|xs| + k] == ys[k];
  }

  lemma {:induction false} FirstMatchAppend(xs: seq<AliasEntry>, ys: seq<AliasEntry>, entityName: string)
    ensures FirstMatch(xs + ys, entityName) ==
            match FirstMatch(xs, entityName)
            case Some(k) => Some(k)
            case None => match FirstMatch(ys, entityName)
                         case None => None
                         case Some(k) => Some(|xs| + k)
  {
    if xs == [] {
      assert xs + ys == ys;
    } else {
      assert (xs + ys)[0] == xs[0];
      if !Matches(xs[0], entityName) {
        assert (xs + ys)[1..] == xs[1..] + ys;
        FirstMatchAppend(xs[1..], ys, entityName);
      }
    }
  }
}
