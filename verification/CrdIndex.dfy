/** The index of a tenant's custom resources by group and plural name
    (pkg/util/crd.go). */
module CrdIndex {
  import opened Common
  import opened CustomResources

  type Resources = map<string, CRD>
  type CustomGroupResourcesMap = map<string, Resources>

  // --------------------------------------------- the specification, over the list

  /** The last CRD of the list with the group and the plural name. */
  function Last(crds: seq<CRD>, group: string, plural: string): Option<CRD>
    decreases |crds|
  {
    if crds == [] then None
    else
      var last := crds[|crds| - 1];
      if last.group == group && last.plural == plural then Some(last) else Last(crds[..|crds| - 1], group, plural)
  }

  /** The i-th CRD has no later namesake. */
  predicate Survives(crds: seq<CRD>, i: nat)
    requires i < |crds|
  {
    forall j | i < j < |crds| :: crds[j].group != crds[i].group || crds[j].plural != crds[i].plural
  }

  lemma {:induction false} LastIff(crds: seq<CRD>, group: string, plural: string, c: CRD)
    ensures Last(crds, group, plural) == Some(c) <==>
            exists i :: 0 <= i < |crds| && crds[i] == c && c.group == group && c.plural == plural && Survives(crds, i)
    decreases |crds|
  {
    if crds != [] {
      var rest, last := crds[..|crds| - 1], crds[|crds| - 1];
      if last.group == group && last.plural == plural {
        if last == c { assert Survives(crds, |crds| - 1); }
      } else {
        LastIff(rest, group, plural, c);
        if Last(rest, group, plural) == Some(c) {
          var i :| 0 <= i < |rest| && rest[i] == c && c.group == group && c.plural == plural && Survives(rest, i);
          assert crds[i] == c;
          forall j | i < j < |crds| ensures crds[j].group != c.group || crds[j].plural != c.plural {
            if j < |rest| { assert rest[j] == crds[j]; }
          }
          assert Survives(crds, i);
        }
        if i :| 0 <= i < |crds| && crds[i] == c && c.group == group && c.plural == plural && Survives(crds, i) {
          assert rest[i] == c;
          assert forall j | i < j < |rest| :: rest[j] == crds[j];
          assert Survives(rest, i);
        }
      }
    }
  }

  // ----------------------------------------------------------------------- index

  /** The index answers as the list does; and it has a group for each CRD, no more. */
  ghost predicate Indexes(grm: CustomGroupResourcesMap, crds: seq<CRD>) {
    && (forall g, p :: Last(crds, g, p) == GetCRD(grm, g, p))
    && (forall g :: g in grm <==> exists c :: c in crds && c.group == g)
  }

  /** A group that is not there reads as a map with nothing in it. */
  function ResourcesOf(grm: CustomGroupResourcesMap, group: string): Resources {
    if group in grm then grm[group] else map[]
  }

  function GetCRD(grm: CustomGroupResourcesMap, group: string, plural: string): Option<CRD> {
    if plural in ResourcesOf(grm, group) then Some(ResourcesOf(grm, group)[plural]) else None
  }

  method NewCustomGroupResourcesMap(crdList: seq<CRD>) returns (grm: CustomGroupResourcesMap)
    ensures Indexes(grm, crdList)
  {
    hide Indexes;
    grm := map[];
    IndexesNothing();
    for i := 0 to |crdList|
      invariant Indexes(grm, crdList[..i])
    {
      var crd := crdList[i];
      ghost var was := grm;
      if crd.group !in grm {
        grm := grm[crd.group := map[]];
      }
      grm := grm[crd.group := grm[crd.group][crd.plural := crd]];
      assert crdList[..i + 1] == crdList[..i] + [crd];
      IndexesOneMore(was, crdList[..i], crd, grm);
    }
    assert crdList[..|crdList|] == crdList;
  }

  lemma IndexesNothing()
    ensures Indexes(map[], [])
  {
  }

  lemma IndexesOneMore(grm: CustomGroupResourcesMap, crds: seq<CRD>, crd: CRD, grm': CustomGroupResourcesMap)
    requires Indexes(grm, crds)
    requires grm' == grm[crd.group := ResourcesOf(grm, crd.group)[crd.plural := crd]]
    ensures Indexes(grm', crds + [crd])
  {
    var crds' := crds + [crd];
    assert crds'[..|crds|] == crds;
    forall g, p ensures Last(crds', g, p) == GetCRD(grm', g, p) {
      assert Last(crds, g, p) == GetCRD(grm, g, p);
    }
    forall g ensures g in grm' <==> exists c :: c in crds' && c.group == g {
      if c :| c in crds && c.group == g { assert c in crds'; }
      assert crd in crds';
    }
  }

  // --------------------------------------------------------------------- queries

  method HasGroup(grm: CustomGroupResourcesMap, group: string, ghost crds: seq<CRD>) returns (b: bool)
    requires Indexes(grm, crds)
    ensures b <==> exists c :: c in crds && c.group == group
  {
    b := group in grm;
  }

  method HasGroupResource(grm: CustomGroupResourcesMap, group: string, plural: string, ghost crds: seq<CRD>) returns (b: bool)
    requires Indexes(grm, crds)
    ensures b <==> exists c :: c in crds && c.group == group && c.plural == plural
  {
    FoundIff(crds, group, plural);
    b := GetCRD(grm, group, plural).Some?;
  }

  method HasResource(grm: CustomGroupResourcesMap, plural: string, ghost crds: seq<CRD>) returns (b: bool)
    requires Indexes(grm, crds)
    ensures b <==> exists c :: c in crds && c.plural == plural
  {
    var todo := grm.Keys;
    while todo != {}
      invariant todo <= grm.Keys
      invariant forall g | g in grm && g !in todo :: plural !in grm[g]
      decreases |todo|
    {
      var g :| g in todo;
      if plural in grm[g] {
        FoundIff(crds, g, plural);
        assert GetCRD(grm, g, plural).Some?;
        return true;
      }
      todo := todo - {g};
    }
    forall c | c in crds ensures c.plural != plural {
      FoundIff(crds, c.group, plural);
    }
    return false;
  }

  lemma {:induction false} FoundIff(crds: seq<CRD>, group: string, plural: string)
    ensures Last(crds, group, plural).Some? <==> exists c :: c in crds && c.group == group && c.plural == plural
    ensures Last(crds, group, plural).Some? ==>
              var c := Last(crds, group, plural).value; c in crds && c.group == group && c.plural == plural
    decreases |crds|
  {
    if crds != [] {
      var rest, last := crds[..|crds| - 1], crds[|crds| - 1];
      assert crds == rest + [last];
      FoundIff(rest, group, plural);
    }
  }

  method ServesVersion(crd: CRD, version: string) returns (b: bool)
    ensures b <==> version in crd.versions
  {
    for i := 0 to |crd.versions|
      invariant version !in crd.versions[..i]
    {
      if crd.versions[i] == version { return true; }
    }
    return false;
  }

  /** Some CRD of the group serves the version: of those listed, one that survives. */
  method HasGroupVersion(grm: CustomGroupResourcesMap, group: string, version: string, ghost crds: seq<CRD>) returns (b: bool)
    requires Indexes(grm, crds)
    ensures b <==> exists i :: 0 <= i < |crds| && Survives(crds, i) && crds[i].group == group && version in crds[i].versions
  {
    hide Survives, Last;
    var resources := ResourcesOf(grm, group);
    var todo := resources.Keys;
    while todo != {}
      invariant todo <= resources.Keys
      invariant forall p | p in resources && p !in todo :: version !in resources[p].versions
      decreases |todo|
    {
      var p :| p in todo;
      var serves := ServesVersion(resources[p], version);
      if serves {
        assert GetCRD(grm, group, p) == Some(resources[p]);
        LastIff(crds, group, p, resources[p]);
        return true;
      }
      todo := todo - {p};
    }
    forall i | 0 <= i < |crds| && Survives(crds, i) && crds[i].group == group ensures version !in crds[i].versions {
      LastIff(crds, group, crds[i].plural, crds[i]);
    }
    return false;
  }

  method HasGroupVersionResource(grm: CustomGroupResourcesMap, group: string, version: string, plural: string, ghost crds: seq<CRD>)
    returns (b: bool)
    requires Indexes(grm, crds)
    ensures b <==> exists i :: 0 <= i < |crds| && Survives(crds, i) && crds[i].group == group && crds[i].plural == plural && version in crds[i].versions
  {
    hide Survives, Last;
    var crd := GetCRD(grm, group, plural);
    assert Last(crds, group, plural) == crd;
    if crd.Some? {
      LastIff(crds, group, plural, crd.value);
      b := ServesVersion(crd.value, version);
    } else {
      b := false;
    }
    if i :| 0 <= i < |crds| && Survives(crds, i) && crds[i].group == group && crds[i].plural == plural && version in crds[i].versions {
      LastIff(crds, group, plural, crds[i]);
    }
  }
}
