/** The groups asserted upstream for a forwarded request (pkg/util/util.go,
    pkg/util/tenantsa.go). */
module Impersonation {
  import opened Common
  import opened Names

  const KUBEZOO := "kubezoo:"
  const PROXIED := "kubezoo:proxied:"
  const PROXIED_SA := "kubezoo:proxied-sa:"
  const ROLE_AUTHOR := "kubezoo:role-author"
  const SERVICE_ACCOUNT := "system:serviceaccount:"

  datatype RequestInfo = RequestInfo(isResourceRequest: bool, apiGroup: string, resource: string, verb: string)

  /** The extra fields of the authenticated user, and what was parsed of the request. */
  datatype Context = Context(extra: Option<map<string, seq<string>>>, info: Option<RequestInfo>)

  function TenantIDFrom(ctx: Context): string {
    match ctx.extra
    case None => ""
    case Some(extra) => if "tenant" in extra && |extra["tenant"]| > 0 then extra["tenant"][0] else ""
  }

  predicate WritesAClusterRole(ctx: Context) {
    match ctx.info
    case None => false
    case Some(info) =>
      && info.isResourceRequest
      && info.apiGroup == "rbac.authorization.k8s.io" && info.resource == "clusterroles"
      && (info.verb == "create" || info.verb == "update" || info.verb == "patch")
  }

  function TenantAdminUser(tenantID: string): string {
    tenantID + "-admin"
  }

  function ProxiedGroup(tenantID: string): string {
    PROXIED + tenantID
  }

  function TenantSAGroup(tenantID: string, upstreamNamespace: string, name: string): string {
    PROXIED_SA + (tenantID + ":" + (TrimTenantIDPrefix(tenantID, upstreamNamespace) + ":" + name))
  }

  datatype ServiceAccount = ServiceAccount(tenantID: string, namespace: string, name: string)

  function TenantSAFromUsername(username: string): Option<ServiceAccount> {
    if !HasPrefix(username, SERVICE_ACCOUNT) then None
    else
      match SplitFirst(TrimPrefix(username, SERVICE_ACCOUNT), ':')
      case None => None
      case Some(parts) =>
        if parts.head == "" || parts.tail == "" then None
        else if |parts.head| <= TENANT_ID_LENGTH + 1 then None
        else if parts.head[TENANT_ID_LENGTH] != '-' then None
        else Some(ServiceAccount(parts.head[..TENANT_ID_LENGTH], parts.head, parts.tail))
  }

  function GroupOf(sa: ServiceAccount): string {
    TenantSAGroup(sa.tenantID, sa.namespace, sa.name)
  }

  /** The groups that are not the gateway's own, in order. */
  function Outsiders(groups: seq<string>): seq<string>
    decreases |groups|
  {
    if groups == [] then []
    else
      var rest, last := groups[..|groups| - 1], groups[|groups| - 1];
      Outsiders(rest) + if HasPrefix(last, KUBEZOO) then [] else [last]
  }

  /** What is added, whatever groups came in. */
  function Asserted(ctx: Context, userName: string): seq<string> {
    var tenantID := TenantIDFrom(ctx);
    if tenantID == "" then []
    else if userName == TenantAdminUser(tenantID) then
      [ProxiedGroup(tenantID)] + if WritesAClusterRole(ctx) then [ROLE_AUTHOR] else []
    else
      match TenantSAFromUsername(userName)
      case None => []
      case Some(sa) => if sa.tenantID == tenantID then [GroupOf(sa)] else []
  }

  function Forwarded(ctx: Context, userName: string, groups: seq<string>): seq<string> {
    Outsiders(groups) + Asserted(ctx, userName)
  }

  method ImpersonationGroups(ctx: Context, userName: string, groups: seq<string>) returns (forwarded: seq<string>)
    ensures forwarded == Forwarded(ctx, userName, groups)
  {
    var tenantID := TenantIDFrom(ctx);
    forwarded := [];
    for i := 0 to |groups|
      invariant forwarded == Outsiders(groups[..i])
    {
      assert groups[..i + 1][..i] == groups[..i];
      if HasPrefix(groups[i], KUBEZOO) { continue; }
      forwarded := forwarded + [groups[i]];
    }
    assert groups[..|groups|] == groups;
    if tenantID == "" { return; }
    if userName != TenantAdminUser(tenantID) {
      var sa := TenantSAFromUsername(userName);
      if sa.Some? && sa.value.tenantID == tenantID {
        forwarded := forwarded + [TenantSAGroup(tenantID, sa.value.namespace, sa.value.name)];
      }
      return;
    }
    forwarded := forwarded + [ProxiedGroup(tenantID)];
    if WritesAClusterRole(ctx) {
      forwarded := forwarded + [ROLE_AUTHOR];
    }
  }

  // ------------------------------------------------------------- service accounts

  /** Exactly which user names are a tenant's ServiceAccount, and whose. */
  lemma ParsedIff(username: string, sa: ServiceAccount)
    ensures TenantSAFromUsername(username) == Some(sa) <==>
            && username == SERVICE_ACCOUNT + (sa.namespace + ":" + sa.name)
            && ':' !in sa.namespace && sa.name != ""
            && TenantID(sa.tenantID) && HasPrefix(sa.namespace, Prefix(sa.tenantID))
            && TrimTenantIDPrefix(sa.tenantID, sa.namespace) != ""
  {
    var rest := sa.namespace + [':'] + sa.name;
    if TenantSAFromUsername(username) == Some(sa) {
      assert sa.namespace[..TENANT_ID_LENGTH + 1] == Prefix(sa.tenantID);
      assert username == SERVICE_ACCOUNT + rest;
    }
    if username == SERVICE_ACCOUNT + rest && ':' !in sa.namespace && TenantID(sa.tenantID)
       && HasPrefix(sa.namespace, Prefix(sa.tenantID)) {
      SplitJoined(sa.namespace, ':', sa.name);
      assert TrimPrefix(username, SERVICE_ACCOUNT) == rest;
      assert sa.namespace[..TENANT_ID_LENGTH] == Prefix(sa.tenantID)[..TENANT_ID_LENGTH] == sa.tenantID;
    }
  }

  /** Two user names of ServiceAccounts never share a group. */
  lemma GroupOfInjective(u: string, u': string)
    requires TenantSAFromUsername(u).Some? && TenantSAFromUsername(u').Some?
    requires GroupOf(TenantSAFromUsername(u).value) == GroupOf(TenantSAFromUsername(u').value)
    ensures u == u'
  {
    var sa, sa' := TenantSAFromUsername(u).value, TenantSAFromUsername(u').value;
    ParsedIff(u, sa);
    ParsedIff(u', sa');
    hide TenantSAFromUsername;
    GroupRead(sa);
    GroupRead(sa');
  }

  /** The group of an account can be taken apart again. */
  function Taken(group: string): Option<ServiceAccount> {
    match SplitFirst(TrimPrefix(group, PROXIED_SA), ':')
    case None => None
    case Some(p) =>
      match SplitFirst(p.tail, ':')
      case None => None
      case Some(q) => Some(ServiceAccount(p.head, AddTenantIDPrefix(p.head, q.head), q.tail))
  }

  lemma GroupRead(sa: ServiceAccount)
    requires ':' !in sa.namespace && HasPrefix(sa.namespace, Prefix(sa.tenantID))
    ensures Taken(GroupOf(sa)) == Some(sa)
  {
    var ns := TrimTenantIDPrefix(sa.tenantID, sa.namespace);
    PrefixTrimmed(sa.tenantID, sa.namespace);
    assert forall c | c in ns :: c in sa.namespace;
    assert forall c | c in sa.tenantID :: c in Prefix(sa.tenantID);
    assert forall c | c in Prefix(sa.tenantID) :: c in sa.namespace;
    var inner := ns + [':'] + sa.name;
    SplitJoined(ns, ':', sa.name);
    SplitJoined(sa.tenantID, ':', inner);
    assert sa.tenantID + ":" + inner == sa.tenantID + [':'] + inner;
    assert TrimPrefix(GroupOf(sa), PROXIED_SA) == sa.tenantID + [':'] + inner;
  }

  /** Naming the namespace as upstream does or as the tenant does comes to the same
      group exactly for the namespaces a tenant can create. */
  lemma EitherNameOfTheNamespace(tenantID: string, namespace: string, name: string)
    ensures TenantSAGroup(tenantID, AddTenantIDPrefix(tenantID, namespace), name) == TenantSAGroup(tenantID, namespace, name)
            <==> NamespaceNameForTenant(tenantID, namespace)
  {
    PrefixAdded(tenantID, namespace);
    if HasPrefix(namespace, Prefix(tenantID)) {
      assert |TrimTenantIDPrefix(tenantID, namespace)| < |namespace|;
      assert |TenantSAGroup(tenantID, namespace, name)| < |TenantSAGroup(tenantID, AddTenantIDPrefix(tenantID, namespace), name)|;
    }
  }

  /** The three kinds of asserted group never collide. */
  lemma AssertedKindsDiffer(tenantID: string, tenantID': string, namespace: string, name: string)
    ensures ProxiedGroup(tenantID) != TenantSAGroup(tenantID', namespace, name)
    ensures ProxiedGroup(tenantID) != ROLE_AUTHOR
    ensures TenantSAGroup(tenantID', namespace, name) != ROLE_AUTHOR
  {
    assert ProxiedGroup(tenantID)[15] == PROXIED[15] == ':';
    assert TenantSAGroup(tenantID', namespace, name)[15] == PROXIED_SA[15] == '-';
    assert ProxiedGroup(tenantID)[8] == PROXIED[8] == 'p';
    assert TenantSAGroup(tenantID', namespace, name)[8] == PROXIED_SA[8] == 'p';
    assert ROLE_AUTHOR[8] == 'r';
  }

  // ------------------------------------------------------------- asserted groups

  lemma {:induction false} OutsiderIff(groups: seq<string>, group: string)
    ensures group in Outsiders(groups) <==> group in groups && !HasPrefix(group, KUBEZOO)
    decreases |groups|
  {
    if groups != [] {
      var rest, last := groups[..|groups| - 1], groups[|groups| - 1];
      assert groups == rest + [last];
      OutsiderIff(rest, group);
    }
  }

  lemma {:induction false} OutsidersOfJoined(a: seq<string>, b: seq<string>)
    ensures Outsiders(a + b) == Outsiders(a) + Outsiders(b)
    decreases |b|
  {
    if b == [] {
      assert a + b == a;
    } else {
      assert (a + b)[..|a + b| - 1] == a + b[..|b| - 1];
      OutsidersOfJoined(a, b[..|b| - 1]);
    }
  }

  lemma {:induction false} OutsidersUnchanged(groups: seq<string>)
    requires forall group | group in groups :: !HasPrefix(group, KUBEZOO)
    ensures Outsiders(groups) == groups
    decreases |groups|
  {
    hide HasPrefix;
    if groups != [] {
      var rest, last := groups[..|groups| - 1], groups[|groups| - 1];
      assert groups == rest + [last] && last in groups;
      assert forall group | group in rest :: group in groups;
      OutsidersUnchanged(rest);
    }
  }

  lemma AssertedAreKubezoos(ctx: Context, userName: string, group: string)
    requires group in Asserted(ctx, userName)
    ensures HasPrefix(group, KUBEZOO)
  {
    hide TenantSAFromUsername, TenantIDFrom, WritesAClusterRole;
    assert PROXIED[..8] == KUBEZOO && PROXIED_SA[..8] == KUBEZOO && ROLE_AUTHOR[..8] == KUBEZOO;
    assert group[..8] == KUBEZOO;
  }

  /** A group of the gateway's own goes up if and only if it is asserted; another one,
      if and only if it came in. Nothing that came in bears on the first. */
  lemma ForwardedIff(ctx: Context, userName: string, groups: seq<string>, group: string)
    ensures group in Forwarded(ctx, userName, groups) <==>
            if HasPrefix(group, KUBEZOO) then group in Asserted(ctx, userName) else group in groups
  {
    hide Asserted;
    OutsiderIff(groups, group);
    if group in Asserted(ctx, userName) {
      AssertedAreKubezoos(ctx, userName, group);
    }
  }

  /** A tenant's proxied group goes up exactly for the tenant's own credential, and
      the role author's exactly when that credential also writes a ClusterRole. */
  lemma AdminGroupsIff(ctx: Context, userName: string, groups: seq<string>, tenantID: string)
    ensures ProxiedGroup(tenantID) in Forwarded(ctx, userName, groups) <==>
            tenantID != "" && TenantIDFrom(ctx) == tenantID && userName == TenantAdminUser(tenantID)
    ensures ROLE_AUTHOR in Forwarded(ctx, userName, groups) <==>
            TenantIDFrom(ctx) != "" && userName == TenantAdminUser(TenantIDFrom(ctx)) && WritesAClusterRole(ctx)
  {
    hide TenantSAFromUsername, TenantIDFrom, WritesAClusterRole, Forwarded;
    ForwardedIff(ctx, userName, groups, ProxiedGroup(tenantID));
    ForwardedIff(ctx, userName, groups, ROLE_AUTHOR);
    assert ProxiedGroup(tenantID)[..8] == PROXIED[..8] == KUBEZOO && ROLE_AUTHOR[..8] == KUBEZOO;
    var id := TenantIDFrom(ctx);
    AssertedKindsDiffer(tenantID, id, "", "");
    AssertedKindsDiffer(id, id, "", "");
    match TenantSAFromUsername(userName) {
      case Some(sa) =>
        AssertedKindsDiffer(tenantID, sa.tenantID, sa.namespace, sa.name);
      case None =>
    }
    assert ProxiedGroup(tenantID)[|PROXIED|..] == tenantID && ProxiedGroup(id)[|PROXIED|..] == id;
  }

  /** The group of a ServiceAccount goes up exactly when the request authenticated as
      that account, in its own tenant. */
  lemma ServiceAccountGroupIff(ctx: Context, userName: string, groups: seq<string>, account: string)
    requires TenantSAFromUsername(account).Some?
    ensures GroupOf(TenantSAFromUsername(account).value) in Forwarded(ctx, userName, groups) <==>
            userName == account && TenantIDFrom(ctx) == TenantSAFromUsername(account).value.tenantID
  {
    var sa := TenantSAFromUsername(account).value;
    ParsedIff(account, sa);
    hide TenantSAFromUsername, TenantIDFrom, WritesAClusterRole, Forwarded, GroupOf;
    var id := TenantIDFrom(ctx);
    ForwardedIff(ctx, userName, groups, GroupOf(sa));
    AccountGroupIsKubezoos(sa);
    AccountGroupIsNoOther(sa, id);
    if GroupOf(sa) in Asserted(ctx, userName) {
      GroupOfInjective(userName, account);
    }
    if id == sa.tenantID {
      assert |TenantAdminUser(id)| == 12 < |SERVICE_ACCOUNT| <= |account|;
    }
  }

  lemma AccountGroupIsKubezoos(sa: ServiceAccount)
    ensures HasPrefix(GroupOf(sa), KUBEZOO)
  {
    assert GroupOf(sa)[..8] == PROXIED_SA[..8] == KUBEZOO;
  }

  lemma AccountGroupIsNoOther(sa: ServiceAccount, tenantID: string)
    ensures GroupOf(sa) != ProxiedGroup(tenantID) && GroupOf(sa) != ROLE_AUTHOR
  {
    AssertedKindsDiffer(tenantID, sa.tenantID, sa.namespace, sa.name);
  }

  // ---------------------------------------------------- the same, spelled out

  /** The tenant of the request is the first value of its extra field "tenant". */
  lemma TenantSpelled(ctx: Context, tenantID: string)
    requires tenantID != ""
    ensures TenantIDFrom(ctx) == tenantID <==>
            ctx.extra.Some? && "tenant" in ctx.extra.value && |ctx.extra.value["tenant"]| > 0 && ctx.extra.value["tenant"][0] == tenantID
  {
  }

  lemma KubezooGroupsSpelled(tenantID: string)
    ensures "kubezoo:" == KUBEZOO && "kubezoo:role-author" == ROLE_AUTHOR && "kubezoo:proxied:" + tenantID == ProxiedGroup(tenantID)
    ensures tenantID + "-admin" == TenantAdminUser(tenantID)
  {
  }

  /** The tenant's own credential, and nothing else, gets the tenant's group. */
  lemma ProxiedGroupSpelled(ctx: Context, userName: string, groups: seq<string>, tenantID: string)
    ensures "kubezoo:proxied:" + tenantID in Forwarded(ctx, userName, groups) <==>
            && tenantID != ""
            && ctx.extra.Some? && "tenant" in ctx.extra.value && |ctx.extra.value["tenant"]| > 0
            && ctx.extra.value["tenant"][0] == tenantID
            && userName == tenantID + "-admin"
  {
    KubezooGroupsSpelled(tenantID);
    AdminGroupsIff(ctx, userName, groups, tenantID);
    if tenantID != "" { TenantSpelled(ctx, tenantID); }
    hide Forwarded, TenantIDFrom, ProxiedGroup, TenantAdminUser;
  }

  /** The exemption from the escalation check goes up when the tenant's own credential
      creates, updates or patches a ClusterRole, and for no other request. */
  lemma RoleAuthorSpelled(ctx: Context, userName: string, groups: seq<string>)
    ensures "kubezoo:role-author" in Forwarded(ctx, userName, groups) <==>
            && ctx.extra.Some? && "tenant" in ctx.extra.value && |ctx.extra.value["tenant"]| > 0
            && ctx.extra.value["tenant"][0] != ""
            && userName == ctx.extra.value["tenant"][0] + "-admin"
            && ctx.info.Some? && ctx.info.value.isResourceRequest
            && ctx.info.value.apiGroup == "rbac.authorization.k8s.io"
            && ctx.info.value.resource == "clusterroles"
            && (ctx.info.value.verb == "create" || ctx.info.value.verb == "update" || ctx.info.value.verb == "patch")
  {
    KubezooGroupsSpelled(TenantIDFrom(ctx));
    AdminGroupsIff(ctx, userName, groups, "");
    hide Forwarded, ProxiedGroup;
  }

  /** So not for a binding, and not for a read. */
  lemma OnlyClusterRoleWrites(ctx: Context, userName: string, groups: seq<string>)
    requires ctx.info.Some?
    requires ctx.info.value.resource == "clusterrolebindings" || ctx.info.value.verb in ["get", "list", "watch", "delete", "deletecollection"]
    ensures "kubezoo:role-author" !in Forwarded(ctx, userName, groups)
  {
    RoleAuthorSpelled(ctx, userName, groups);
    assert "clusterrolebindings"[11] == 'b' && |"clusterroles"| == 12 < |"clusterrolebindings"|;
    assert "create"[0] == 'c' && "update"[0] == 'u' && "patch"[0] == 'p';
    assert "get"[0] == 'g' && "list"[0] == 'l' && "watch"[0] == 'w' && "delete"[0] == 'd' && "deletecollection"[0] == 'd';
    hide Forwarded;
  }

  /** The user name and the group of a ServiceAccount. */
  lemma AccountGroupSpelled(ctx: Context, userName: string, groups: seq<string>, tenantID: string, namespace: string, name: string)
    requires |tenantID| == 6 && ':' !in tenantID && ':' !in namespace && namespace != "" && name != ""
    ensures "kubezoo:proxied-sa:" + tenantID + ":" + namespace + ":" + name in Forwarded(ctx, userName, groups) <==>
            && ctx.extra.Some? && "tenant" in ctx.extra.value && |ctx.extra.value["tenant"]| > 0
            && ctx.extra.value["tenant"][0] == tenantID
            && userName == "system:serviceaccount:" + tenantID + "-" + namespace + ":" + name
  {
    var sa := ServiceAccount(tenantID, tenantID + "-" + namespace, name);
    var account := SERVICE_ACCOUNT + (sa.namespace + ":" + sa.name);
    PrefixAdded(tenantID, namespace);
    assert account == "system:serviceaccount:" + tenantID + "-" + namespace + ":" + name;
    assert GroupOf(sa) == "kubezoo:proxied-sa:" + tenantID + ":" + namespace + ":" + name;
    ParsedIff(account, sa);
    TenantSpelled(ctx, tenantID);
    hide Forwarded, TenantIDFrom, TenantSAFromUsername, GroupOf;
    ServiceAccountGroupIff(ctx, userName, groups, account);
  }

  /** No other group of the gateway's own goes up, and every other group goes up exactly
      if it came in. */
  lemma NoOtherGroup(ctx: Context, userName: string, groups: seq<string>, group: string)
    ensures !("kubezoo:" <= group) ==> (group in Forwarded(ctx, userName, groups) <==> group in groups)
    ensures "kubezoo:" <= group && group in Forwarded(ctx, userName, groups) ==>
              || group == "kubezoo:role-author"
              || (exists tenantID: string :: group == "kubezoo:proxied:" + tenantID)
              || (exists tenantID: string, namespace: string, name: string ::
                    |tenantID| == 6 && ':' !in tenantID && ':' !in namespace && namespace != "" && name != ""
                    && group == "kubezoo:proxied-sa:" + tenantID + ":" + namespace + ":" + name)
  {
    ForwardedIff(ctx, userName, groups, group);
    KubezooGroupsSpelled(TenantIDFrom(ctx));
    if group in Asserted(ctx, userName) && group != ROLE_AUTHOR && group != ProxiedGroup(TenantIDFrom(ctx)) {
      AssertedAccount(ctx, userName, group);
    }
  }

  /** What of an account's name is in its group. */
  lemma AccountParts(sa: ServiceAccount) returns (namespace: string)
    requires ':' !in sa.namespace && HasPrefix(sa.namespace, Prefix(sa.tenantID))
    ensures namespace == TrimTenantIDPrefix(sa.tenantID, sa.namespace) && ':' !in namespace && ':' !in sa.tenantID
    ensures GroupOf(sa) == "kubezoo:proxied-sa:" + sa.tenantID + ":" + namespace + ":" + sa.name
  {
    namespace := TrimTenantIDPrefix(sa.tenantID, sa.namespace);
    PrefixTrimmed(sa.tenantID, sa.namespace);
    assert sa.namespace == sa.tenantID + "-" + namespace;
  }

  lemma AssertedOfAccount(ctx: Context, userName: string, group: string) returns (sa: ServiceAccount)
    requires group in Asserted(ctx, userName) && group != ROLE_AUTHOR && group != ProxiedGroup(TenantIDFrom(ctx))
    ensures TenantSAFromUsername(userName) == Some(sa) && group == GroupOf(sa)
  {
    hide TenantIDFrom, WritesAClusterRole, TenantSAFromUsername, GroupOf, ProxiedGroup, TenantAdminUser;
    sa := TenantSAFromUsername(userName).value;
  }

  lemma AssertedAccount(ctx: Context, userName: string, group: string)
    requires group in Asserted(ctx, userName) && group != ROLE_AUTHOR && group != ProxiedGroup(TenantIDFrom(ctx))
    ensures exists tenantID: string, namespace: string, name: string ::
              |tenantID| == 6 && ':' !in tenantID && ':' !in namespace && namespace != "" && name != ""
              && group == "kubezoo:proxied-sa:" + tenantID + ":" + namespace + ":" + name
  {
    hide Asserted, TenantIDFrom, GroupOf, TenantSAFromUsername, TrimTenantIDPrefix;
    var sa := AssertedOfAccount(ctx, userName, group);
    ParsedIff(userName, sa);
    var namespace := AccountParts(sa);
    assert |sa.tenantID| == 6 && group == "kubezoo:proxied-sa:" + sa.tenantID + ":" + namespace + ":" + sa.name;
  }

  /** What went up can come in again: it is dropped and asserted anew, no more. */
  lemma ForwardingIsIdempotent(ctx: Context, userName: string, groups: seq<string>)
    ensures Forwarded(ctx, userName, Forwarded(ctx, userName, groups)) == Forwarded(ctx, userName, groups)
  {
    hide Asserted, Outsiders;
    var asserted := Asserted(ctx, userName);
    OutsidersOfJoined(Outsiders(groups), asserted);
    forall group | group in Outsiders(groups) ensures !HasPrefix(group, KUBEZOO) {
      OutsiderIff(groups, group);
    }
    OutsidersUnchanged(Outsiders(groups));
    if Outsiders(asserted) != [] {
      var group := Outsiders(asserted)[0];
      OutsiderIff(asserted, group);
      AssertedAreKubezoos(ctx, userName, group);
      assert false;
    }
  }
}
