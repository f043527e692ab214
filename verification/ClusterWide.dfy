/** The rules of a tenant's ClusterRole that may be bound across the whole cluster
    (pkg/util/clusterwide.go). */
module ClusterWide {
  import opened Rbac
  import opened Names

  predicate GroupIsTenantOwned(group: string, tenantID: string) {
    tenantID != "" && HasPrefix(group, Prefix(tenantID))
  }

  /** What RuleIsTenantOwned decides. */
  predicate TenantOwned(rule: Rule, tenantID: string) {
    && rule.nonResourceURLs == []
    && rule.apiGroups != []
    && forall group | group in rule.apiGroups :: GroupIsTenantOwned(group, tenantID)
  }

  /** The safe rules, in order. */
  function SafeRules(rules: seq<Rule>, tenantID: string): seq<Rule>
    decreases |rules|
  {
    if rules == [] then []
    else
      var rest, last := rules[..|rules| - 1], rules[|rules| - 1];
      SafeRules(rest, tenantID) + if TenantOwned(last, tenantID) then [last] else []
  }

  // -------------------------------------------------------------------- programs

  method RuleIsTenantOwned(rule: Rule, tenantID: string) returns (b: bool)
    ensures b == TenantOwned(rule, tenantID)
  {
    if |rule.nonResourceURLs| > 0 { return false; }
    if |rule.apiGroups| == 0 { return false; }
    for i := 0 to |rule.apiGroups|
      invariant forall j | 0 <= j < i :: GroupIsTenantOwned(rule.apiGroups[j], tenantID)
    {
      if !GroupIsTenantOwned(rule.apiGroups[i], tenantID) { return false; }
    }
    return true;
  }

  method RulesSafeForClusterWideBinding(rules: seq<Rule>, tenantID: string) returns (safe: seq<Rule>)
    ensures safe == SafeRules(rules, tenantID)
  {
    safe := [];
    for i := 0 to |rules|
      invariant safe == SafeRules(rules[..i], tenantID)
    {
      assert rules[..i + 1][..i] == rules[..i];
      var owned := RuleIsTenantOwned(rules[i], tenantID);
      if owned { safe := safe + [rules[i]]; }
    }
    assert rules[..|rules|] == rules;
  }

  // ------------------------------------------------------------------ properties

  /** at lists, in increasing order, the positions of the safe rules and no others. */
  ghost predicate SafePositions(at: seq<nat>, rules: seq<Rule>, tenantID: string) {
    && (forall j, k | 0 <= j < k < |at| :: at[j] < at[k])
    && (forall i: nat :: i in at <==> i < |rules| && TenantOwned(rules[i], tenantID))
  }

  lemma OnePositionMore(at: seq<nat>, rules: seq<Rule>, tenantID: string)
    requires rules == [] ==> at == []
    requires rules != [] ==> SafePositions(at, rules[..|rules| - 1], tenantID)
    ensures SafePositions(at + if rules != [] && TenantOwned(rules[|rules| - 1], tenantID) then [|rules| - 1] else [], rules, tenantID)
  {
    hide TenantOwned;
    if rules != [] {
      var rest := rules[..|rules| - 1];
      forall k | 0 <= k < |at| ensures at[k] < |rest| { assert at[k] in at; }
      var added: seq<nat> := if TenantOwned(rules[|rest|], tenantID) then [|rest|] else [];
      forall i: nat ensures i in at + added <==> i < |rules| && TenantOwned(rules[i], tenantID) {
        assert i in added <==> i == |rest| && TenantOwned(rules[|rest|], tenantID);
        if i < |rest| { assert rest[i] == rules[i]; }
      }
    }
  }

  /** The result is the subsequence of the safe rules, each exactly as it was. */
  lemma {:induction false} SafeRulesInOrder(rules: seq<Rule>, tenantID: string) returns (at: seq<nat>)
    ensures SafePositions(at, rules, tenantID)
    ensures |SafeRules(rules, tenantID)| == |at|
    ensures forall k | 0 <= k < |at| :: at[k] < |rules| && SafeRules(rules, tenantID)[k] == rules[at[k]]
    decreases |rules|
  {
    hide TenantOwned;
    at := [];
    if rules == [] {
      OnePositionMore([], [], tenantID);
    } else {
      var rest, last := rules[..|rules| - 1], rules[|rules| - 1];
      assert rules == rest + [last];
      var before := SafeRulesInOrder(rest, tenantID);
      OnePositionMore(before, rules, tenantID);
      at := before + if TenantOwned(last, tenantID) then [|rules| - 1] else [];
    }
  }

  lemma {:induction false} SafeRuleIsSafe(rules: seq<Rule>, tenantID: string, rule: Rule)
    ensures rule in SafeRules(rules, tenantID) <==> rule in rules && TenantOwned(rule, tenantID)
    decreases |rules|
  {
    if rules != [] {
      hide TenantOwned;
      var rest, last := rules[..|rules| - 1], rules[|rules| - 1];
      assert rules == rest + [last];
      SafeRuleIsSafe(rest, tenantID, rule);
    }
  }

  lemma {:induction false} AllSafeKept(rules: seq<Rule>, tenantID: string)
    requires forall rule | rule in rules :: TenantOwned(rule, tenantID)
    ensures SafeRules(rules, tenantID) == rules
    decreases |rules|
  {
    hide TenantOwned;
    if rules != [] {
      var rest, last := rules[..|rules| - 1], rules[|rules| - 1];
      assert rules == rest + [last];
      assert last in rules && forall rule | rule in rest :: rule in rules;
      AllSafeKept(rest, tenantID);
    }
  }

  lemma FilteringIsIdempotent(rules: seq<Rule>, tenantID: string)
    ensures SafeRules(SafeRules(rules, tenantID), tenantID) == SafeRules(rules, tenantID)
  {
    hide TenantOwned, SafeRules;
    forall rule | rule in SafeRules(rules, tenantID) ensures TenantOwned(rule, tenantID) {
      SafeRuleIsSafe(rules, tenantID, rule);
    }
    AllSafeKept(SafeRules(rules, tenantID), tenantID);
  }

  lemma {:induction false} NothingForNoTenant(rules: seq<Rule>)
    ensures SafeRules(rules, "") == []
    decreases |rules|
  {
    hide TenantOwned;
    if rules != [] {
      NothingForNoTenant(rules[..|rules| - 1]);
      NoTenantOwnsNothing(rules[|rules| - 1]);
    }
  }

  lemma NoTenantOwnsNothing(rule: Rule)
    ensures !TenantOwned(rule, "")
  {
    if rule.apiGroups != [] { assert rule.apiGroups[0] in rule.apiGroups; }
  }

  /** Some rule of the list names the group, or covers it with a `*`. Whether it has
      resources and verbs to go with it does not matter here. */
  predicate Reaches(rules: seq<Rule>, group: string) {
    exists rule | rule in rules :: Covers(rule.apiGroups, group)
  }

  lemma StarIsNoOnesGroup(tenantID: string)
    requires tenantID != ""
    ensures !HasPrefix(ALL, Prefix(tenantID))
  {
    assert |Prefix(tenantID)| > |ALL|;
  }

  /** A rule is kept exactly when all it grants is resources, and the groups it names or
      covers with a `*` are some, and all the tenant's. */
  lemma KeptIffConfined(rule: Rule, tenantID: string)
    requires tenantID != ""
    ensures TenantOwned(rule, tenantID) <==>
            && rule.nonResourceURLs == []
            && (exists group :: Covers(rule.apiGroups, group))
            && (forall group | Covers(rule.apiGroups, group) :: tenantID + "-" <= group)
  {
    StarIsNoOnesGroup(tenantID);
    if TenantOwned(rule, tenantID) {
      assert Covers(rule.apiGroups, rule.apiGroups[0]);
    }
    if forall group | Covers(rule.apiGroups, group) :: HasPrefix(group, Prefix(tenantID)) {
      forall group | group in rule.apiGroups ensures GroupIsTenantOwned(group, tenantID) {
        assert Covers(rule.apiGroups, group);
      }
    }
  }

  lemma SafeRulesReachOwnGroups(rules: seq<Rule>, tenantID: string, group: string)
    requires TenantID(tenantID) && Reaches(SafeRules(rules, tenantID), group)
    ensures HasPrefix(group, Prefix(tenantID))
  {
    var rule :| rule in SafeRules(rules, tenantID) && Covers(rule.apiGroups, group);
    SafeRuleIsSafe(rules, tenantID, rule);
    KeptIffConfined(rule, tenantID);
  }

  /** So every request the result permits is for a group of the tenant's. */
  lemma SafeRulesPermitOwnGroups(rules: seq<Rule>, tenantID: string, q: Rbac.Request)
    requires TenantID(tenantID) && PermittedBy(SafeRules(rules, tenantID), q)
    ensures HasPrefix(q.group, Prefix(tenantID))
  {
    hide SafeRules, ResourceMatches;
    SafeRulesReachOwnGroups(rules, tenantID, q.group);
  }

  /** Whatever roles two tenants write, no group is reached from both. */
  lemma TenantsReachDisjointGroups(rules: seq<Rule>, tenantID: string, rules': seq<Rule>, tenantID': string, group: string)
    requires TenantID(tenantID) && TenantID(tenantID') && tenantID != tenantID'
    ensures !Reaches(SafeRules(rules, tenantID), group) || !Reaches(SafeRules(rules', tenantID'), group)
  {
    if Reaches(SafeRules(rules, tenantID), group) && Reaches(SafeRules(rules', tenantID'), group) {
      SafeRulesReachOwnGroups(rules, tenantID, group);
      SafeRulesReachOwnGroups(rules', tenantID', group);
      OnePrefix(tenantID, tenantID', group);
    }
  }
}
