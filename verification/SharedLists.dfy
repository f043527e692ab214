/** When the diagram of Selectors commutes: exactly on the lists whose objects are
    placed, which what tenants store under the guard on namespace names always is. */
module SharedLists {
  import opened Common
  import opened Names
  import opened Selectors

  // ------------------------------------------------------- an object and its view

  lemma PlacedNamespaceIff(ns: string, tenantID: string)
    ensures UpstreamNamespace(tenantID, TrimTenantIDPrefix(tenantID, ns)) == ns <==> PlacedNamespace(ns, tenantID)
  {
    if HasPrefix(ns, Prefix(tenantID)) {
      PrefixTrimmed(tenantID, ns);
    } else {
      assert |AddTenantIDPrefix(tenantID, ns)| > |ns|;
    }
  }

  /** The prefix in front of a name with a dot is not the prefix after the dot. */
  lemma PrefixNotInTheMiddle(head: string, group: string, tenantID: string)
    ensures Prefix(tenantID) + (head + ['.'] + group) != head + ['.'] + (Prefix(tenantID) + group)
  {
    var a, b := Prefix(tenantID) + (head + ['.'] + group), head + ['.'] + (Prefix(tenantID) + group);
    var k := |Prefix(tenantID)| + |head|;
    assert a[k] == '.';
    assert b[k] == Prefix(tenantID)[|Prefix(tenantID)| - 1] == '-';
  }

  /** A CRD in a list of another kind, or an object of another kind in a list of CRDs,
      is not the image of its view. */
  lemma WrongKind(o: Object, tenantID: string, scope: Scope)
    requires UpstreamObjectBelongsToTenant(o, tenantID, scope.namespaceScoped)
    requires if scope.namespaceScoped then IsCRDObject(o) else IsCRDObject(o) != IsCRDScope(scope)
    ensures Image(View(o, tenantID, scope.namespaceScoped), tenantID, scope).name != o.name
  {
    if IsCRDObject(o) {
      var p := SplitFirst(o.name, '.').value;
      var group := TrimTenantIDPrefix(tenantID, p.tail);
      PrefixTrimmed(tenantID, p.tail);
      assert o.name == p.head + ['.'] + (Prefix(tenantID) + group);
      assert ViewName(o, tenantID, scope.namespaceScoped) == p.head + ['.'] + group;
      PrefixNotInTheMiddle(p.head, group, tenantID);
    } else {
      PrefixTrimmed(tenantID, o.name);
      var seen := TrimTenantIDPrefix(tenantID, o.name);
      assert o.name == Prefix(tenantID) + seen;
      match SplitFirst(seen, '.')
      case None =>
        assert |o.name| > |seen|;
      case Some(p) =>
        PrefixNotInTheMiddle(p.head, p.tail, tenantID);
        assert ConvertCRDNameToUpstream(seen, tenantID) == p.head + ['.'] + (Prefix(tenantID) + p.tail);
    }
  }

  /** An object of the tenant is placed exactly when it is the image of its view and
      its name is not the bare prefix. */
  lemma PlacedIff(o: Object, tenantID: string, scope: Scope)
    requires UpstreamObjectBelongsToTenant(o, tenantID, scope.namespaceScoped)
    ensures Placed(o, tenantID, scope) <==>
            && Image(View(o, tenantID, scope.namespaceScoped), tenantID, scope) == o
            && (scope.namespaceScoped || o.name != Prefix(tenantID))
  {
    hide ViewName, UpstreamNamespace, UpstreamObjectBelongsToTenant, PlacedNamespace, IsCRDType, ConvertTenantObjectNameToUpstream;
    PlacedNamespaceIff(o.namespace, tenantID);
    PlacedNamespaceIff(o.involvedNamespace, tenantID);
    if Placed(o, tenantID, scope) {
      ImageOfView(o, tenantID, scope);
    }
    if if scope.namespaceScoped then IsCRDObject(o) else IsCRDObject(o) != IsCRDScope(scope) {
      WrongKind(o, tenantID, scope);
    }
  }

  // --------------------------------------------------------------- whole lists

  lemma {:induction false} InFiltered(f: Object -> bool, list: seq<Object>, o: Object)
    ensures o in Filter(f, list) <==> o in list && f(o)
  {
    if list != [] {
      InFiltered(f, list[1..], o);
      assert o in list <==> o == list[0] || o in list[1..];
    }
  }

  lemma {:induction false} MappedBack(f: Object -> Object, g: Object -> Object, list: seq<Object>)
    requires Map(g, Map(f, list)) == list
    ensures forall o | o in list :: g(f(o)) == o
  {
    if list != [] {
      assert Map(f, list)[1..] == Map(f, list[1..]);
      assert Map(g, Map(f, list))[1..] == list[1..];
      MappedBack(f, g, list[1..]);
      assert list == [list[0]] + list[1..];
    }
  }

  lemma {:induction false} InMapped(f: Object -> Object, list: seq<Object>, o: Object)
    requires o in list
    ensures f(o) in Map(f, list)
  {
    if o != list[0] { InMapped(f, list[1..], o); }
  }

  lemma {:induction false} AllSelected(list: seq<Object>)
    ensures Selected([], list) == list
  {
    if list != [] { AllSelected(list[1..]); }
  }

  /** Asking for everything: the tenant's objects are the images of their views. */
  lemma OwnedAreImages(list: seq<Object>, tenantID: string, scope: Scope, o: Object)
    requires Commutes(list, tenantID, scope, [])
    requires o in list && UpstreamObjectBelongsToTenant(o, tenantID, scope.namespaceScoped)
    ensures Image(View(o, tenantID, scope.namespaceScoped), tenantID, scope) == o
  {
    hide UpstreamObjectBelongsToTenant, Image, View;
    var f := (o: Object) => View(o, tenantID, scope.namespaceScoped);
    var g := (o: Object) => Image(o, tenantID, scope);
    var own := Owned(tenantID, scope.namespaceScoped, list);
    AllSelected(list);
    AllSelected(Map(f, own));
    assert Translate(tenantID, scope, []) == [] && Normal(tenantID, []) == [];
    assert own == Map(g, Map(f, own));
    MappedBack(f, g, own);
    InFiltered((o: Object) => UpstreamObjectBelongsToTenant(o, tenantID, scope.namespaceScoped), list, o);
    assert g(f(o)) == o;
  }

  /** Asking for the empty name: no object has it, but one called by the bare prefix
      would be seen to have it. */
  lemma NoneIsBarePrefix(list: seq<Object>, tenantID: string, scope: Scope, o: Object)
    requires Commutes(list, tenantID, scope, [Equal("metadata.name", "")]) && !scope.namespaceScoped
    requires o in list && UpstreamObjectBelongsToTenant(o, tenantID, scope.namespaceScoped)
    requires Image(View(o, tenantID, scope.namespaceScoped), tenantID, scope) == o
    ensures o.name != Prefix(tenantID)
  {
    var sel := [Equal("metadata.name", "")];
    var f := (o: Object) => View(o, tenantID, scope.namespaceScoped);
    var g := (o: Object) => Image(o, tenantID, scope);
    var own := Owned(tenantID, scope.namespaceScoped, list);
    EmptyName(tenantID, scope, o);
    hide Image, View, Matches, UpstreamObjectBelongsToTenant, Translate, Normal;
    InFiltered((o: Object) => UpstreamObjectBelongsToTenant(o, tenantID, scope.namespaceScoped), list, o);
    InMapped(f, own, o);
    InFiltered((o: Object) => Matches(Normal(tenantID, sel), o), Map(f, own), f(o));
    if Matches(Normal(tenantID, sel), f(o)) {
      var picked := Selected(Normal(tenantID, sel), Map(f, own));
      InMapped(g, picked, f(o));
      var asked := Selected(Translate(tenantID, scope, sel), list);
      assert o in Map(g, picked);
      assert o in Owned(tenantID, scope.namespaceScoped, asked);
      InFiltered((o: Object) => UpstreamObjectBelongsToTenant(o, tenantID, scope.namespaceScoped), asked, o);
      InFiltered((o: Object) => Matches(Translate(tenantID, scope, sel), o), list, o);
    }
  }

  lemma EmptyName(tenantID: string, scope: Scope, o: Object)
    requires UpstreamObjectBelongsToTenant(o, tenantID, scope.namespaceScoped) && !scope.namespaceScoped
    ensures var sel := [Equal("metadata.name", "")];
            && (Matches(Translate(tenantID, scope, sel), o) ==> o.name == "")
            && (o.name == Prefix(tenantID) ==> Matches(Normal(tenantID, sel), View(o, tenantID, scope.namespaceScoped)))
  {
    var sel := [Equal("metadata.name", "")];
    var asked := Translate(tenantID, scope, sel);
    assert asked[0] == sel[0] && asked[0] in asked;
  }

  /** The diagram commutes for every selector exactly when every object of the list that
      is the tenant's is placed. */
  lemma CommutesIffPlaced(list: seq<Object>, tenantID: string, scope: Scope)
    requires tenantID != ""
    ensures (forall sel :: Commutes(list, tenantID, scope, sel)) <==> AllPlaced(list, tenantID, scope)
  {
    hide Commutes, Placed, UpstreamObjectBelongsToTenant, Image, View;
    if AllPlaced(list, tenantID, scope) {
      forall sel ensures Commutes(list, tenantID, scope, sel) {
        QueriesCommute(list, tenantID, scope, sel);
      }
    }
    if forall sel :: Commutes(list, tenantID, scope, sel) {
      forall o | o in list && UpstreamObjectBelongsToTenant(o, tenantID, scope.namespaceScoped)
        ensures Placed(o, tenantID, scope)
      {
        assert Commutes(list, tenantID, scope, []) && Commutes(list, tenantID, scope, [Equal("metadata.name", "")]);
        OwnedAreImages(list, tenantID, scope, o);
        if !scope.namespaceScoped { NoneIsBarePrefix(list, tenantID, scope, o); }
        PlacedIff(o, tenantID, scope);
      }
    }
  }

  // ------------------------------------------------------------------------ runs

  /** A stored namespace, addressed as it should be, is placed. */
  lemma AddressedIsPlaced(u: string, r: Names.Request)
    requires Addressed(u, r)
    ensures PlacedNamespace(u, r.tenantID)
  {
    PlacedNamespaceIff(u, r.tenantID);
  }

  /** The objects of the list are in stored namespaces, and refer to none, or to a
      stored one of their own tenant. None of them is a CRD. */
  predicate Stored(list: seq<Object>, store: Store, tenantID: string) {
    forall o | o in list ::
      && !IsCRDObject(o)
      && o.namespace in store
      && (HasPrefix(o.namespace, Prefix(tenantID)) ==>
            o.involvedNamespace == "" || (o.involvedNamespace in store && HasPrefix(o.involvedNamespace, Prefix(tenantID))))
  }

  lemma StoredIsPlaced(store: Store, tenantID: string, ns: string)
    requires TenantID(tenantID) && ns in store && Addressed(ns, store[ns]) && HasPrefix(ns, Prefix(tenantID))
    ensures PlacedNamespace(ns, tenantID)
  {
    var r := store[ns];
    AddressedIsPlaced(ns, r);
    if ns != "" {
      OnePrefix(tenantID, r.tenantID, ns);
    }
  }

  /** In every run of creates and deletes, every query of every tenant over objects in
      the stored namespaces commutes. */
  lemma QueriesCommuteInRuns(rs: seq<Names.Request>, list: seq<Object>, tenantID: string, scope: Scope, sel: Selector)
    requires TenantID(tenantID) && scope.namespaceScoped && forall r | r in rs :: Wellformed(r)
    requires Stored(list, Run(map[], rs), tenantID)
    ensures Commutes(list, tenantID, scope, sel)
  {
    hide Commutes, Addressed, PlacedNamespace, Run;
    var store := Run(map[], rs);
    StoredNamespacesAreAddressed(map[], rs);
    forall o | o in list && UpstreamObjectBelongsToTenant(o, tenantID, scope.namespaceScoped)
      ensures Placed(o, tenantID, scope)
    {
      StoredIsPlaced(store, tenantID, o.namespace);
      if o.involvedNamespace != "" {
        StoredIsPlaced(store, tenantID, o.involvedNamespace);
      } else {
        NoNamespaceIsPlaced(tenantID);
      }
    }
    QueriesCommute(list, tenantID, scope, sel);
  }

  lemma NoNamespaceIsPlaced(tenantID: string)
    ensures PlacedNamespace("", tenantID)
  {
  }
}
