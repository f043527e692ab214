/** How a tenant's names become upstream names and back: the string functions of
    pkg/util/util.go, and which upstream objects are whose. */
module Names {
  import opened Common

  const TENANT_ID_LENGTH := 6

  // ------------------------------------------------------------- package strings

  predicate HasPrefix(s: string, prefix: string) {
    prefix <= s
  }

  function TrimPrefix(s: string, prefix: string): string {
    if HasPrefix(s, prefix) then s[|prefix|..] else s
  }

  datatype Parts = Parts(head: string, tail: string)

  /** strings.SplitN(s, sep, 2): the text before and after the first sep. */
  function SplitFirst(s: string, sep: char): (r: Option<Parts>)
    ensures r.Some? ==> s == r.value.head + [sep] + r.value.tail && sep !in r.value.head
    ensures r.None? ==> sep !in s
  {
    if s == [] then None
    else if s[0] == sep then Some(Parts([], s[1..]))
    else
      match SplitFirst(s[1..], sep)
      case None => None
      case Some(p) => Some(Parts([s[0]] + p.head, p.tail))
  }

  lemma {:induction false} SplitJoined(head: string, sep: char, tail: string)
    requires sep !in head
    ensures SplitFirst(head + [sep] + tail, sep) == Some(Parts(head, tail))
  {
    var s := head + [sep] + tail;
    if head == [] {
      assert s[1..] == tail;
    } else {
      assert s[0] == head[0] && s[1..] == head[1..] + [sep] + tail;
      SplitJoined(head[1..], sep, tail);
      assert [head[0]] + head[1..] == head;
    }
  }

  // -------------------------------------------------------------------- prefixes

  /** What every name of the tenant begins with upstream. */
  function Prefix(tenantID: string): string {
    tenantID + "-"
  }

  function AddTenantIDPrefix(tenantID: string, input: string): string {
    Prefix(tenantID) + input
  }

  function TrimTenantIDPrefix(tenantID: string, input: string): string {
    TrimPrefix(input, Prefix(tenantID))
  }

  function UpstreamNamespace(tenantID: string, namespace: string): string {
    if namespace == "" then namespace
    else if HasPrefix(namespace, Prefix(tenantID)) then namespace
    else AddTenantIDPrefix(tenantID, namespace)
  }

  /** NamespaceNameForTenant returns no error. */
  predicate NamespaceNameForTenant(tenantID: string, name: string) {
    !HasPrefix(name, Prefix(tenantID))
  }

  function TenantIDFromPrefixed(prefixed: string): Option<string> {
    if |prefixed| < TENANT_ID_LENGTH + 2 then None
    else if prefixed[TENANT_ID_LENGTH] != '-' then None
    else Some(prefixed[..TENANT_ID_LENGTH])
  }

  // ------------------------------------------------------- kinds and their names

  datatype GroupVersionKind = GroupVersionKind(group: string, version: string, kind: string)

  function GroupVersion(gvk: GroupVersionKind): string {
    if gvk.group == "" then gvk.version else gvk.group + "/" + gvk.version
  }

  predicate IsCRDType(apiVersion: string, kind: string) {
    (apiVersion == "apiextensions.k8s.io/v1" || apiVersion == "apiextensions.k8s.io/v1beta1")
    && kind == "CustomResourceDefinition"
  }

  /** A CRD is called <plural>.<group>, and its group takes the prefix. A name
      without a dot is left alone. */
  function ConvertCRDNameToUpstream(name: string, tenantID: string): string {
    match SplitFirst(name, '.')
    case None => name
    case Some(p) => p.head + "." + (tenantID + "-" + p.tail)
  }

  function ConvertTenantObjectNameToUpstream(name: string, tenantID: string, gvk: GroupVersionKind): string {
    if IsCRDType(GroupVersion(gvk), gvk.kind) then ConvertCRDNameToUpstream(name, tenantID)
    else AddTenantIDPrefix(tenantID, name)
  }

  // --------------------------------------------------------------------- objects

  /** What of an object the translation looks at. */
  datatype Object = Object(
    apiVersion: string,
    kind: string,
    namespace: string,
    name: string,
    involvedNamespace: string,
    otherFields: map<string, string>)

  predicate IsCRDObject(o: Object) {
    IsCRDType(o.apiVersion, o.kind)
  }

  predicate CRDNameBelongs(name: string, tenantID: string) {
    match SplitFirst(name, '.')
    case None => false
    case Some(p) => HasPrefix(p.tail, Prefix(tenantID))
  }

  predicate UpstreamObjectBelongsToTenant(o: Object, tenantID: string, isNamespaceScoped: bool) {
    if IsCRDObject(o) then CRDNameBelongs(o.name, tenantID)
    else if isNamespaceScoped then HasPrefix(o.namespace, Prefix(tenantID))
    else HasPrefix(o.name, Prefix(tenantID))
  }

  predicate TenantID(id: string) {
    |id| == TENANT_ID_LENGTH
  }

  // ------------------------------------------------- the translation, spelled out

  /** A namespace takes the prefix, unless it is none or has it already. */
  lemma UpstreamNamespaceSpelled(tenantID: string, namespace: string)
    ensures UpstreamNamespace(tenantID, "") == ""
    ensures namespace != "" && !(tenantID + "-" <= namespace) ==> UpstreamNamespace(tenantID, namespace) == tenantID + "-" + namespace
    ensures UpstreamNamespace(tenantID, tenantID + "-" + namespace) == tenantID + "-" + namespace
    ensures TrimTenantIDPrefix(tenantID, tenantID + "-" + namespace) == namespace
    ensures !(tenantID + "-" <= namespace) ==> TrimTenantIDPrefix(tenantID, namespace) == namespace
    ensures NamespaceNameForTenant(tenantID, namespace) <==> !(tenantID + "-" <= namespace)
  {
    PrefixAdded(tenantID, namespace);
  }

  lemma IdsAreSixLong(id: string, s: string)
    ensures TenantID(id) <==> |id| == 6
    ensures TenantIDFromPrefixed(s) == Some(id) <==> |id| == 6 && |s| > 7 && id + "-" <= s
  {
    if |id| == 6 && |s| > 7 && id + "-" <= s {
      assert s[..7] == id + "-";
      assert s[..6] == s[..7][..6] == id;
    }
    if TenantIDFromPrefixed(s) == Some(id) {
      assert s[..7] == id + "-";
    }
  }

  const EXTENSIONS := "apiextensions.k8s.io"

  lemma ExtensionsHaveNoSlash()
    ensures '/' !in EXTENSIONS && '/' !in "v1" && '/' !in "v1beta1" && EXTENSIONS == "apiextensions.k8s.io"
  {
  }

  /** A string splits at its only slash in one way. */
  lemma OnlySlash(a: string, b: string, x: string, y: string)
    requires a + "/" + b == x + "/" + y && '/' !in b && '/' !in x && '/' !in y
    ensures a == x && b == y
  {
    var s := x + "/" + y;
    assert s == a + "/" + b && s[|a|] == '/';
    forall k | 0 <= k < |s| && k != |x| ensures s[k] != '/' {
      if k < |x| { assert s[k] == x[k]; } else { assert s[k] == y[k - |x| - 1]; }
    }
    assert a == s[..|x|] == x;
    assert b == s[|x| + 1..] == y;
  }

  lemma CRDKindSpelled(gvk: GroupVersionKind)
    requires '/' !in gvk.version
    ensures IsCRDType(GroupVersion(gvk), gvk.kind) <==>
            && gvk.group == "apiextensions.k8s.io"
            && (gvk.version == "v1" || gvk.version == "v1beta1")
            && gvk.kind == "CustomResourceDefinition"
  {
    ExtensionsHaveNoSlash();
    assert EXTENSIONS + "/" + "v1" == "apiextensions.k8s.io/v1";
    assert EXTENSIONS + "/" + "v1beta1" == "apiextensions.k8s.io/v1beta1";
    if gvk.group == "" {
      assert "apiextensions.k8s.io/v1"[|EXTENSIONS|] == '/' && "apiextensions.k8s.io/v1beta1"[|EXTENSIONS|] == '/';
    } else if GroupVersion(gvk) == EXTENSIONS + "/" + "v1" {
      OnlySlash(gvk.group, gvk.version, EXTENSIONS, "v1");
    } else if GroupVersion(gvk) == EXTENSIONS + "/" + "v1beta1" {
      OnlySlash(gvk.group, gvk.version, EXTENSIONS, "v1beta1");
    }
  }

  /** The name of a CRD, of either version, takes the prefix after its first dot. */
  lemma CRDNameSpelled(head: string, tail: string, tenantID: string, version: string)
    requires (version == "v1" || version == "v1beta1") && '.' !in head
    ensures var gvk := GroupVersionKind("apiextensions.k8s.io", version, "CustomResourceDefinition");
            && ConvertTenantObjectNameToUpstream(head + "." + tail, tenantID, gvk) == head + "." + tenantID + "-" + tail
            && ConvertTenantObjectNameToUpstream(head, tenantID, gvk) == head
  {
    ExtensionsHaveNoSlash();
    CRDKindSpelled(GroupVersionKind("apiextensions.k8s.io", version, "CustomResourceDefinition"));
    hide IsCRDType, GroupVersion;
    SplitJoined(head, '.', tail);
    assert head + "." + tail == head + ['.'] + tail;
    UndottedCRDName(head, tenantID);
  }

  /** The name of anything else takes it in front. */
  lemma OtherNameSpelled(name: string, tenantID: string, gvk: GroupVersionKind)
    requires '/' !in gvk.version
    requires gvk.group != "apiextensions.k8s.io" || gvk.kind != "CustomResourceDefinition" || gvk.version !in ["v1", "v1beta1"]
    ensures ConvertTenantObjectNameToUpstream(name, tenantID, gvk) == tenantID + "-" + name
  {
    CRDKindSpelled(gvk);
    hide IsCRDType, GroupVersion;
  }

  /** The part after the first dot begins with the prefix. */
  ghost predicate PrefixedAfterDot(name: string, tenantID: string) {
    exists head: string, rest: string :: '.' !in head && name == head + "." + (tenantID + "-" + rest)
  }

  lemma CRDNameBelongsSpelled(name: string, tenantID: string)
    ensures CRDNameBelongs(name, tenantID) <==> PrefixedAfterDot(name, tenantID)
  {
    if CRDNameBelongs(name, tenantID) {
      var p := SplitFirst(name, '.').value;
      PrefixTrimmed(tenantID, p.tail);
      assert name == p.head + "." + (tenantID + "-" + TrimTenantIDPrefix(tenantID, p.tail));
    }
    if head: string, rest: string :| '.' !in head && name == head + "." + (tenantID + "-" + rest) {
      SplitJoined(head, '.', tenantID + "-" + rest);
      assert name == head + ['.'] + (tenantID + "-" + rest);
      PrefixAdded(tenantID, rest);
    }
  }

  /** A CRD, of either version, belongs to a tenant by the part of its name after the
      first dot; a namespaced object by its namespace, any other by its name. */
  lemma BelongsSpelled(o: Object, tenantID: string, isNamespaceScoped: bool)
    ensures UpstreamObjectBelongsToTenant(o, tenantID, isNamespaceScoped) <==>
            if (o.apiVersion == "apiextensions.k8s.io/v1" || o.apiVersion == "apiextensions.k8s.io/v1beta1")
               && o.kind == "CustomResourceDefinition"
            then PrefixedAfterDot(o.name, tenantID)
            else if isNamespaceScoped then tenantID + "-" <= o.namespace
            else tenantID + "-" <= o.name
  {
    CRDNameBelongsSpelled(o.name, tenantID);
  }

  // ------------------------------------------------------------- the partition

  lemma PrefixAdded(tenantID: string, rest: string)
    ensures HasPrefix(AddTenantIDPrefix(tenantID, rest), Prefix(tenantID))
    ensures TrimTenantIDPrefix(tenantID, AddTenantIDPrefix(tenantID, rest)) == rest
  {
  }

  lemma PrefixTrimmed(tenantID: string, s: string)
    requires HasPrefix(s, Prefix(tenantID))
    ensures s == AddTenantIDPrefix(tenantID, TrimTenantIDPrefix(tenantID, s))
  {
  }

  /** A string carries at most one tenant's prefix. */
  lemma OnePrefix(a: string, b: string, s: string)
    requires TenantID(a) && TenantID(b) && HasPrefix(s, Prefix(a)) && HasPrefix(s, Prefix(b))
    ensures a == b
  {
    assert s[..TENANT_ID_LENGTH] == Prefix(a)[..TENANT_ID_LENGTH] == a;
    assert s[..TENANT_ID_LENGTH] == Prefix(b)[..TENANT_ID_LENGTH] == b;
  }

  /** No upstream object belongs to two tenants. */
  lemma ObjectsArePartitioned(o: Object, a: string, b: string, isNamespaceScoped: bool)
    requires TenantID(a) && TenantID(b)
    requires UpstreamObjectBelongsToTenant(o, a, isNamespaceScoped) && UpstreamObjectBelongsToTenant(o, b, isNamespaceScoped)
    ensures a == b
  {
    OnePrefix(a, b, if IsCRDObject(o) then SplitFirst(o.name, '.').value.tail
                    else if isNamespaceScoped then o.namespace else o.name);
  }

  lemma UpstreamCRDName(name: string, tenantID: string)
    requires '.' in name
    ensures var p := SplitFirst(name, '.').value;
            SplitFirst(ConvertCRDNameToUpstream(name, tenantID), '.') == Some(Parts(p.head, AddTenantIDPrefix(tenantID, p.tail)))
  {
    var p := SplitFirst(name, '.').value;
    SplitJoined(p.head, '.', AddTenantIDPrefix(tenantID, p.tail));
    assert ConvertCRDNameToUpstream(name, tenantID) == p.head + ['.'] + AddTenantIDPrefix(tenantID, p.tail);
  }

  /** What the converters produce for a tenant belongs to it. */
  lemma ConvertedBelongs(o: Object, tenantID: string, gvk: GroupVersionKind, name: string, namespace: string)
    requires IsCRDObject(o) == IsCRDType(GroupVersion(gvk), gvk.kind)
    ensures !IsCRDObject(o) && namespace != "" ==>
              UpstreamObjectBelongsToTenant(o.(namespace := UpstreamNamespace(tenantID, namespace)), tenantID, true)
    ensures !IsCRDObject(o) || '.' in name ==>
              UpstreamObjectBelongsToTenant(o.(name := ConvertTenantObjectNameToUpstream(name, tenantID, gvk)), tenantID, false)
  {
    PrefixAdded(tenantID, namespace);
    PrefixAdded(tenantID, name);
    if IsCRDObject(o) && '.' in name {
      UpstreamCRDName(name, tenantID);
      PrefixAdded(tenantID, SplitFirst(name, '.').value.tail);
    }
  }

  lemma UndottedCRDName(name: string, tenantID: string)
    requires '.' !in name
    ensures ConvertCRDNameToUpstream(name, tenantID) == name
  {
  }

  lemma DotKept(name: string, tenantID: string)
    ensures '.' in ConvertCRDNameToUpstream(name, tenantID) <==> '.' in name
  {
    if '.' in name {
      UpstreamCRDName(name, tenantID);
    } else {
      UndottedCRDName(name, tenantID);
    }
  }

  /** Exactly when two CRD names become the same upstream name: when they are the same
      name of one tenant, or the same name without a dot, which no CRD has and which is
      left alone for every tenant. */
  lemma CRDConversionInjective(name1: string, name2: string, t1: string, t2: string)
    requires t1 == t2 || (TenantID(t1) && TenantID(t2))
    ensures ConvertCRDNameToUpstream(name1, t1) == ConvertCRDNameToUpstream(name2, t2) <==>
            name1 == name2 && (t1 == t2 || '.' !in name1)
  {
    DotKept(name1, t1);
    DotKept(name2, t2);
    if '.' !in name1 {
      UndottedCRDName(name1, t1);
      UndottedCRDName(name1, t2);
      if '.' !in name2 { UndottedCRDName(name2, t2); }
    } else if '.' in name2 {
      UpstreamCRDName(name1, t1);
      UpstreamCRDName(name2, t2);
      var g1, g2 := SplitFirst(name1, '.').value.tail, SplitFirst(name2, '.').value.tail;
      PrefixAdded(t1, g1);
      PrefixAdded(t2, g2);
      if AddTenantIDPrefix(t1, g1) == AddTenantIDPrefix(t2, g2) && t1 != t2 {
        OnePrefix(t1, t2, AddTenantIDPrefix(t1, g1));
      }
    }
  }

  /** Exactly when two names become the same upstream name of a kind: only when they are
      the same name of one tenant; but for CRD names without a dot. */
  lemma ConversionInjective(name1: string, name2: string, t1: string, t2: string, gvk: GroupVersionKind)
    requires TenantID(t1) && TenantID(t2)
    ensures ConvertTenantObjectNameToUpstream(name1, t1, gvk) == ConvertTenantObjectNameToUpstream(name2, t2, gvk) <==>
            name1 == name2 && (t1 == t2 || (IsCRDType(GroupVersion(gvk), gvk.kind) && '.' !in name1))
  {
    if IsCRDType(GroupVersion(gvk), gvk.kind) {
      CRDConversionInjective(name1, name2, t1, t2);
    } else {
      PrefixAdded(t1, name1);
      PrefixAdded(t2, name2);
      if AddTenantIDPrefix(t1, name1) == AddTenantIDPrefix(t2, name2) {
        OnePrefix(t1, t2, AddTenantIDPrefix(t1, name1));
      }
    }
  }

  /** The tenant is read back from anything that was prefixed, dashes in the id or
      not; and only from what has the shape of a prefixed name. */
  lemma TenantIDRecovered(tenantID: string, s: string)
    requires TenantID(tenantID)
    ensures TenantIDFromPrefixed(s) == Some(tenantID) <==>
            HasPrefix(s, Prefix(tenantID)) && TrimTenantIDPrefix(tenantID, s) != ""
  {
    if TenantIDFromPrefixed(s) == Some(tenantID) {
      assert s[..TENANT_ID_LENGTH + 1] == Prefix(tenantID);
    }
    if HasPrefix(s, Prefix(tenantID)) {
      assert s[..TENANT_ID_LENGTH] == Prefix(tenantID)[..TENANT_ID_LENGTH] == tenantID;
    }
  }

  // -------------------------------------------------------- namespace addressing

  lemma UpstreamNamespaceIdempotent(tenantID: string, namespace: string)
    ensures UpstreamNamespace(tenantID, UpstreamNamespace(tenantID, namespace)) == UpstreamNamespace(tenantID, namespace)
  {
    PrefixAdded(tenantID, namespace);
  }

  /** The reserved names are exactly those a tenant could not reach again: a namespace
      stored for a name is addressed by that name if and only if the name is accepted
      (and is a name). */
  lemma AcceptedIffReachable(tenantID: string, name: string)
    ensures UpstreamNamespace(tenantID, name) == AddTenantIDPrefix(tenantID, name) <==>
            name != "" && NamespaceNameForTenant(tenantID, name)
  {
    if HasPrefix(name, Prefix(tenantID)) {
      assert |AddTenantIDPrefix(tenantID, name)| > |name|;
    }
  }

  /** On the accepted names, trimming undoes the translation. */
  lemma TrimInvertsUpstream(tenantID: string, name: string)
    requires NamespaceNameForTenant(tenantID, name)
    ensures TrimTenantIDPrefix(tenantID, UpstreamNamespace(tenantID, name)) == name
  {
    PrefixAdded(tenantID, name);
  }

  lemma UpstreamNamespaceInjective(tenantID: string, a: string, b: string)
    requires NamespaceNameForTenant(tenantID, a) && NamespaceNameForTenant(tenantID, b)
    requires UpstreamNamespace(tenantID, a) == UpstreamNamespace(tenantID, b)
    ensures a == b
  {
    TrimInvertsUpstream(tenantID, a);
    TrimInvertsUpstream(tenantID, b);
  }

  // ------------------------------------------------------------------------ runs

  /** A request to create a namespace of the tenant, or to delete an upstream one. */
  datatype Request = Create(tenantID: string, name: string) | Delete(upstream: string)

  /** Who created each stored namespace, and under which name. */
  type Store = map<string, Request>

  predicate Wellformed(r: Request) {
    r.Create? ==> TenantID(r.tenantID)
  }

  /** A create passes the guard and the API server's own check for a name, is stored
      under the prefixed name, and fails if that is taken. */
  function Perform(s: Store, r: Request): Store {
    match r
    case Create(tenantID, name) =>
      var upstream := AddTenantIDPrefix(tenantID, name);
      if name == "" || !NamespaceNameForTenant(tenantID, name) || upstream in s then s else s[upstream := r]
    case Delete(upstream) => s - {upstream}
  }

  function Run(s: Store, rs: seq<Request>): Store
    decreases |rs|
  {
    if rs == [] then s else Run(Perform(s, rs[0]), rs[1..])
  }

  /** The stored namespace u answers to the name its tenant gave it and to its own,
      comes back under the tenant's name, and to no other tenant at all. */
  ghost predicate Addressed(u: string, r: Request) {
    && r.Create? && TenantID(r.tenantID)
    && UpstreamNamespace(r.tenantID, r.name) == u
    && UpstreamNamespace(r.tenantID, u) == u
    && TrimTenantIDPrefix(r.tenantID, u) == r.name
    && forall t: string, n: string | TenantID(t) && UpstreamNamespace(t, n) == u :: t == r.tenantID && (n == r.name || n == u)
  }

  lemma CreatedIsAddressed(tenantID: string, name: string)
    requires TenantID(tenantID) && name != "" && NamespaceNameForTenant(tenantID, name)
    ensures Addressed(AddTenantIDPrefix(tenantID, name), Create(tenantID, name))
  {
    var u := AddTenantIDPrefix(tenantID, name);
    PrefixAdded(tenantID, name);
    forall t: string, n: string | TenantID(t) && UpstreamNamespace(t, n) == u
      ensures t == tenantID && (n == name || n == u)
    {
      PrefixAdded(t, n);
      OnePrefix(t, tenantID, u);
    }
  }

  /** In every run, every stored namespace is addressed as it should be. */
  lemma {:induction false} StoredNamespacesAreAddressed(s: Store, rs: seq<Request>)
    requires forall u | u in s :: Addressed(u, s[u])
    requires forall r | r in rs :: Wellformed(r)
    ensures forall u | u in Run(s, rs) :: Addressed(u, Run(s, rs)[u])
    decreases |rs|
  {
    if rs != [] {
      var r := rs[0];
      if r.Create? && r.name != "" && NamespaceNameForTenant(r.tenantID, r.name) {
        assert Wellformed(r);
        CreatedIsAddressed(r.tenantID, r.name);
      }
      StoredNamespacesAreAddressed(Perform(s, r), rs[1..]);
    }
  }
}
