/** The rules a tenant's ServiceAccount may hold at cluster scope: what it asks for,
    narrowed to what the tenant is allowed (pkg/util/tenantsa.go). */
module ServiceAccountRules {
  import opened Common
  import opened Rbac

  /** One combination a rule asks for, `*` taken as it stands. */
  datatype Triple = Triple(group: string, resource: string, verb: string)

  function Elements(s: seq<string>): set<string> {
    set x | x in s
  }

  function Groups(ts: set<Triple>): set<string> {
    set t | t in ts :: t.group
  }

  function Resources(ts: set<Triple>): set<string> {
    set t | t in ts :: t.resource
  }

  function Verbs(ts: set<Triple>): set<string> {
    set t | t in ts :: t.verb
  }

  function Product(groups: seq<string>, resources: seq<string>, verbs: seq<string>): set<Triple> {
    set g, r, v | g in groups && r in resources && v in verbs :: Triple(g, r, v)
  }

  function ProductOf(rule: Rule): set<Triple> {
    Product(rule.apiGroups, rule.resources, rule.verbs)
  }

  predicate TripleAllowed(allowed: seq<Rule>, t: Triple) {
    AllowedBy(allowed, t.group, t.resource, t.verb)
  }

  /** The combinations asked for that the allowed rules cover. */
  function Granted(asked: Rule, allowed: seq<Rule>): set<Triple> {
    set t | t in ProductOf(asked) && TripleAllowed(allowed, t)
  }

  predicate Distinct(s: seq<string>) {
    forall i, j | 0 <= i < j < |s| :: s[i] != s[j]
  }

  /** kept holds the groups, the resources and the verbs of the triples, each once,
      and nothing else. */
  predicate Collects(kept: Rule, ts: set<Triple>) {
    && Elements(kept.apiGroups) == Groups(ts)
    && Elements(kept.resources) == Resources(ts)
    && Elements(kept.verbs) == Verbs(ts)
    && Distinct(kept.apiGroups) && Distinct(kept.resources) && Distinct(kept.verbs)
    && kept.resourceNames == [] && kept.nonResourceURLs == []
  }

  /** What narrowing makes of one asked-for rule: nothing when none of it is granted. */
  predicate Narrowed(asked: Rule, allowed: seq<Rule>, kept: Option<Rule>) {
    match kept
    case None => Granted(asked, allowed) == {}
    case Some(k) => Granted(asked, allowed) != {} && Collects(k, Granted(asked, allowed))
  }

  // -------------------------------------------------------------------- programs

  method CoversLoop(allowed: seq<string>, want: string) returns (b: bool)
    ensures b == Covers(allowed, want)
  {
    for i := 0 to |allowed|
      invariant forall j | 0 <= j < i :: allowed[j] != ALL && allowed[j] != want
    {
      if allowed[i] == ALL || allowed[i] == want { return true; }
    }
    return false;
  }

  method AllowedByLoop(allowed: seq<Rule>, group: string, resource: string, verb: string) returns (b: bool)
    ensures b == AllowedBy(allowed, group, resource, verb)
  {
    for i := 0 to |allowed|
      invariant forall j | 0 <= j < i :: !RuleCovers(allowed[j], group, resource, verb)
    {
      var rule := allowed[i];
      var g := CoversLoop(rule.apiGroups, group);
      var r := CoversLoop(rule.resources, resource);
      var v := CoversLoop(rule.verbs, verb);
      if !g || !r || !v { continue; }
      assert RuleCovers(rule, group, resource, verb);
      return true;
    }
    return false;
  }

  method AppendUnique(list: seq<string>, want: string) returns (r: seq<string>)
    ensures Elements(r) == Elements(list) + {want}
    ensures Distinct(list) ==> Distinct(r)
    ensures list <= r && |r| <= |list| + 1
  {
    for i := 0 to |list|
      invariant want !in list[..i]
    {
      if list[i] == want { return list; }
    }
    return list + [want];
  }

  lemma CollectOne(ts: set<Triple>, t: Triple)
    ensures Groups(ts + {t}) == Groups(ts) + {t.group}
    ensures Resources(ts + {t}) == Resources(ts) + {t.resource}
    ensures Verbs(ts + {t}) == Verbs(ts) + {t.verb}
  {
    assert t in ts + {t};
    assert forall u | u in ts :: u in ts + {t};
  }

  /** The granted triples among the first a groups with every resource and verb, the
      a-th group with the first b resources, and that resource with the first e verbs. */
  predicate Visited(asked: Rule, a: nat, b: nat, e: nat, t: Triple)
    requires a <= |asked.apiGroups| && b <= |asked.resources| && e <= |asked.verbs|
    requires b > 0 || e > 0 ==> a < |asked.apiGroups|
    requires e > 0 ==> b < |asked.resources|
  {
    || (t.group in asked.apiGroups[..a] && t.resource in asked.resources && t.verb in asked.verbs)
    || (b > 0 && t.group == asked.apiGroups[a] && t.resource in asked.resources[..b] && t.verb in asked.verbs)
    || (e > 0 && t.group == asked.apiGroups[a] && t.resource == asked.resources[b] && t.verb in asked.verbs[..e])
  }

  method NarrowToAllowed(asked: Rule, allowed: seq<Rule>) returns (r: Option<Rule>)
    ensures Narrowed(asked, allowed, r)
  {
    hide AllowedBy, Collects;
    var kept := Rule([], [], [], [], []);
    ghost var granted: set<Triple> := {};
    CollectsNothing(kept);
    for a := 0 to |asked.apiGroups|
      invariant Collects(kept, granted)
      invariant forall t :: t in granted <==> Visited(asked, a, 0, 0, t) && TripleAllowed(allowed, t)
    {
      var group := asked.apiGroups[a];
      for b := 0 to |asked.resources|
        invariant Collects(kept, granted)
        invariant forall t :: t in granted <==> Visited(asked, a, b, 0, t) && TripleAllowed(allowed, t)
      {
        var resource := asked.resources[b];
        for e := 0 to |asked.verbs|
          invariant Collects(kept, granted)
          invariant forall t :: t in granted <==> Visited(asked, a, b, e, t) && TripleAllowed(allowed, t)
        {
          var verb := asked.verbs[e];
          var t := Triple(group, resource, verb);
          VisitVerb(asked, a, b, e);
          var ok := AllowedByLoop(allowed, group, resource, verb);
          if !ok { continue; }
          kept := Keep(kept, t, granted);
          granted := granted + {t};
        }
        VisitResource(asked, a, b);
      }
      VisitGroup(asked, a);
    }
    VisitAll(asked);
    assert granted == Granted(asked, allowed);
    EmptyRule(kept, granted);
    if |kept.apiGroups| == 0 || |kept.resources| == 0 || |kept.verbs| == 0 {
      return None;
    }
    return Some(kept);
  }

  method Keep(kept: Rule, t: Triple, ghost granted: set<Triple>) returns (r: Rule)
    requires Collects(kept, granted)
    ensures Collects(r, granted + {t})
  {
    CollectOne(granted, t);
    var groups := AppendUnique(kept.apiGroups, t.group);
    var resources := AppendUnique(kept.resources, t.resource);
    var verbs := AppendUnique(kept.verbs, t.verb);
    r := kept.(apiGroups := groups, resources := resources, verbs := verbs);
  }

  lemma CollectsNothing(kept: Rule)
    requires kept == Rule([], [], [], [], [])
    ensures Collects(kept, {})
  {
  }

  lemma InLongerPrefix(s: seq<string>, k: nat, x: string)
    requires k < |s|
    ensures x in s[..k + 1] <==> x in s[..k] || x == s[k]
  {
    assert s[..k + 1] == s[..k] + [s[k]];
  }

  lemma VisitVerb(asked: Rule, a: nat, b: nat, e: nat)
    requires a < |asked.apiGroups| && b < |asked.resources| && e < |asked.verbs|
    ensures forall t :: Visited(asked, a, b, e + 1, t) <==>
                        Visited(asked, a, b, e, t) || t == Triple(asked.apiGroups[a], asked.resources[b], asked.verbs[e])
  {
    forall t
      ensures Visited(asked, a, b, e + 1, t) <==>
              Visited(asked, a, b, e, t) || t == Triple(asked.apiGroups[a], asked.resources[b], asked.verbs[e])
    {
      InLongerPrefix(asked.verbs, e, t.verb);
    }
  }

  lemma VisitResource(asked: Rule, a: nat, b: nat)
    requires a < |asked.apiGroups| && b < |asked.resources|
    ensures forall t :: Visited(asked, a, b + 1, 0, t) <==> Visited(asked, a, b, |asked.verbs|, t)
  {
    assert asked.verbs[..|asked.verbs|] == asked.verbs;
    forall t ensures Visited(asked, a, b + 1, 0, t) <==> Visited(asked, a, b, |asked.verbs|, t) {
      InLongerPrefix(asked.resources, b, t.resource);
    }
  }

  lemma VisitGroup(asked: Rule, a: nat)
    requires a < |asked.apiGroups|
    ensures forall t :: Visited(asked, a + 1, 0, 0, t) <==> Visited(asked, a, |asked.resources|, 0, t)
  {
    assert asked.resources[..|asked.resources|] == asked.resources;
    forall t ensures Visited(asked, a + 1, 0, 0, t) <==> Visited(asked, a, |asked.resources|, 0, t) {
      InLongerPrefix(asked.apiGroups, a, t.group);
    }
  }

  lemma VisitAll(asked: Rule)
    ensures forall t :: Visited(asked, |asked.apiGroups|, 0, 0, t) <==> t in ProductOf(asked)
  {
    assert asked.apiGroups[..|asked.apiGroups|] == asked.apiGroups;
  }

  lemma EmptyRule(kept: Rule, granted: set<Triple>)
    requires Collects(kept, granted)
    ensures granted == {} <==> |kept.apiGroups| == 0 || |kept.resources| == 0 || |kept.verbs| == 0
  {
    if granted != {} {
      var t :| t in granted;
      assert t.group in Groups(granted) && t.resource in Resources(granted) && t.verb in Verbs(granted);
      assert t.group in Elements(kept.apiGroups) && t.resource in Elements(kept.resources) && t.verb in Elements(kept.verbs);
    } else {
      SomeElement(kept.apiGroups);
    }
  }

  lemma SomeElement(s: seq<string>)
    ensures s != [] ==> Elements(s) != {}
  {
    if s != [] { assert s[0] in Elements(s); }
  }

  /** The rules kept of a list, in order. */
  predicate NarrowedList(asked: seq<Rule>, allowed: seq<Rule>, out: seq<Rule>)
    decreases |asked|
  {
    if asked == [] then out == []
    else
      var rest, last := asked[..|asked| - 1], asked[|asked| - 1];
      if Granted(last, allowed) == {} then NarrowedList(rest, allowed, out)
      else
        out != [] && Collects(out[|out| - 1], Granted(last, allowed))
        && NarrowedList(rest, allowed, out[..|out| - 1])
  }

  method ClusterScopedRulesForSA(asked: seq<Rule>, allowed: seq<Rule>) returns (out: seq<Rule>)
    ensures NarrowedList(asked, allowed, out)
  {
    hide Granted, Collects;
    out := [];
    for i := 0 to |asked|
      invariant NarrowedList(asked[..i], allowed, out)
    {
      var narrowed := NarrowToAllowed(asked[i], allowed);
      assert asked[..i + 1][..i] == asked[..i];
      if narrowed.Some? {
        assert (out + [narrowed.value])[..|out|] == out;
        out := out + [narrowed.value];
      }
    }
    assert asked[..|asked|] == asked;
  }

  // ------------------------------------------------------------------ properties

  /** The kept rule is the least product that holds the granted triples. */
  lemma KeptIsLeastProduct(asked: Rule, allowed: seq<Rule>, kept: Rule, groups: seq<string>, resources: seq<string>, verbs: seq<string>)
    requires Narrowed(asked, allowed, Some(kept))
    ensures Granted(asked, allowed) <= ProductOf(kept) <= ProductOf(asked)
    ensures Granted(asked, allowed) <= Product(groups, resources, verbs) <==>
            ProductOf(kept) <= Product(groups, resources, verbs)
  {
    var ts := Granted(asked, allowed);
    GrantedInKept(ts, kept);
    forall t | t in ProductOf(kept) ensures t in ProductOf(asked) {
      InProduct(t, ts, kept);
    }
    if ts <= Product(groups, resources, verbs) {
      forall t | t in ProductOf(kept) ensures t in Product(groups, resources, verbs) {
        InProduct(t, ts, kept);
      }
    }
  }

  lemma GrantedInKept(ts: set<Triple>, kept: Rule)
    requires Collects(kept, ts)
    ensures ts <= ProductOf(kept)
  {
    forall t | t in ts ensures t in ProductOf(kept) {
      assert t.group in Groups(ts) && t.resource in Resources(ts) && t.verb in Verbs(ts);
      assert t.group in Elements(kept.apiGroups) && t.resource in Elements(kept.resources) && t.verb in Elements(kept.verbs);
    }
  }

  lemma InProduct(t: Triple, ts: set<Triple>, kept: Rule)
    requires Collects(kept, ts) && t in ProductOf(kept)
    ensures exists x, y, z :: x in ts && y in ts && z in ts && x.group == t.group && y.resource == t.resource && z.verb == t.verb
  {
    assert t.group in Elements(kept.apiGroups) && t.resource in Elements(kept.resources) && t.verb in Elements(kept.verbs);
    assert t.group in Groups(ts) && t.resource in Resources(ts) && t.verb in Verbs(ts);
  }

  /** What the kept rule covers the asked rule covers. */
  lemma KeptCoveredByAsked(asked: Rule, allowed: seq<Rule>, kept: Rule, g: string, r: string, v: string)
    requires Narrowed(asked, allowed, Some(kept)) && RuleCovers(kept, g, r, v)
    ensures RuleCovers(asked, g, r, v)
  {
    var ts := Granted(asked, allowed);
    forall x | x in kept.apiGroups ensures x in asked.apiGroups { assert x in Elements(kept.apiGroups); assert x in Groups(ts); }
    forall x | x in kept.resources ensures x in asked.resources { assert x in Elements(kept.resources); assert x in Resources(ts); }
    forall x | x in kept.verbs ensures x in asked.verbs { assert x in Elements(kept.verbs); assert x in Verbs(ts); }
  }

  /** A rule that allows everything lets the asked rule through whole. */
  lemma EverythingAllowed(asked: Rule, allowed: seq<Rule>, rule: Rule)
    requires rule in allowed && "*" in rule.apiGroups && "*" in rule.resources && "*" in rule.verbs
    ensures Granted(asked, allowed) == ProductOf(asked)
  {
    assert "*" == ALL;
    forall t | t in ProductOf(asked) ensures t in Granted(asked, allowed) {
      assert RuleCovers(rule, t.group, t.resource, t.verb);
    }
  }

  /** Asking for everything takes being allowed everything, entry by entry. */
  lemma AskedStarNeedsStar(asked: Rule, allowed: seq<Rule>, t: Triple)
    requires t in Granted(asked, allowed)
    ensures exists rule | rule in allowed ::
              && (t.group in rule.apiGroups || "*" in rule.apiGroups)
              && (t.resource in rule.resources || "*" in rule.resources)
              && (t.verb in rule.verbs || "*" in rule.verbs)
  {
    assert "*" == ALL;
    var rule :| rule in allowed && RuleCovers(rule, t.group, t.resource, t.verb);
  }

  /** With any three triples, the one that mixes them. */
  predicate IsProduct(ts: set<Triple>) {
    forall x, y, z | x in ts && y in ts && z in ts :: Triple(x.group, y.resource, z.verb) in ts
  }

  lemma Mixed(ts: set<Triple>, x: Triple, y: Triple, z: Triple)
    requires IsProduct(ts) && x in ts && y in ts && z in ts
    ensures Triple(x.group, y.resource, z.verb) in ts
  {
  }

  lemma KeptWholeIfProduct(ts: set<Triple>, kept: Rule)
    requires Collects(kept, ts) && IsProduct(ts)
    ensures ProductOf(kept) == ts
  {
    hide IsProduct;
    GrantedInKept(ts, kept);
    forall t | t in ProductOf(kept) ensures t in ts {
      hide Collects, ProductOf;
      InProduct(t, ts, kept);
      var x, y, z :| x in ts && y in ts && z in ts && x.group == t.group && y.resource == t.resource && z.verb == t.verb;
      Mixed(ts, x, y, z);
    }
  }

  lemma KeptWholeIffProduct(ts: set<Triple>, kept: Rule)
    requires Collects(kept, ts)
    ensures ProductOf(kept) == ts <==> IsProduct(ts)
  {
    hide Collects;
    if ProductOf(kept) == ts {
      forall x, y, z | x in ts && y in ts && z in ts ensures Triple(x.group, y.resource, z.verb) in ts {
        assert x in ProductOf(kept) && y in ProductOf(kept) && z in ProductOf(kept);
      }
    }
    if IsProduct(ts) {
      hide IsProduct;
      KeptWholeIfProduct(ts, kept);
    }
  }

  /** The kept rule covers nothing that the allowed rules do not, by the library's own
      test, exactly when the granted triples already are a product. */
  lemma KeptCoveredByAllowedIff(asked: Rule, allowed: seq<Rule>, kept: Rule)
    requires Narrowed(asked, allowed, Some(kept))
    ensures (forall g, r, v | RuleCovers(kept, g, r, v) :: AllowedBy(allowed, g, r, v)) <==>
            IsProduct(Granted(asked, allowed))
  {
    hide Collects, IsProduct;
    KeptIsLeastProduct(asked, allowed, kept, [], [], []);
    KeptWholeIffProduct(Granted(asked, allowed), kept);
    if ProductOf(kept) == Granted(asked, allowed) {
      forall g, r, v | RuleCovers(kept, g, r, v) ensures AllowedBy(allowed, g, r, v) {
        var t := Triple(Entry(kept.apiGroups, g), Entry(kept.resources, r), Entry(kept.verbs, v));
        assert t in ProductOf(kept);
        assert TripleAllowed(allowed, t);
        var rule :| rule in allowed && RuleCovers(rule, t.group, t.resource, t.verb);
        assert RuleCovers(rule, g, r, v);
      }
    }
    if forall g, r, v | RuleCovers(kept, g, r, v) :: AllowedBy(allowed, g, r, v) {
      forall t | t in ProductOf(kept) ensures t in Granted(asked, allowed) {
        assert RuleCovers(kept, t.group, t.resource, t.verb);
      }
    }
  }

  /** The entry by which a list covers a name. */
  function Entry(list: seq<string>, want: string): (e: string)
    requires Covers(list, want)
    ensures e in list && (e == want || e == ALL)
  {
    if want in list then want else ALL
  }

  lemma SingleGroupAndResource(asked: Rule, group: string, resource: string, t: Triple)
    requires Elements(asked.apiGroups) == {group} && Elements(asked.resources) == {resource}
    requires t in ProductOf(asked)
    ensures t.group == group && t.resource == resource
  {
    assert t.group in Elements(asked.apiGroups) && t.resource in Elements(asked.resources);
  }

  /** The granted triples are a product when the asked rule names a single group and
      a single resource. */
  lemma SingleResourceIsProduct(asked: Rule, allowed: seq<Rule>, group: string, resource: string)
    requires Elements(asked.apiGroups) == {group} && Elements(asked.resources) == {resource}
    ensures IsProduct(Granted(asked, allowed))
  {
    var ts := Granted(asked, allowed);
    forall x, y, z | x in ts && y in ts && z in ts ensures Triple(x.group, y.resource, z.verb) in ts {
      SingleGroupAndResource(asked, group, resource, x);
      SingleGroupAndResource(asked, group, resource, y);
      SingleGroupAndResource(asked, group, resource, z);
    }
  }

  /** So nothing is covered that is not allowed. */
  lemma SingleResourceCovered(asked: Rule, allowed: seq<Rule>, kept: Rule, group: string, resource: string)
    requires Narrowed(asked, allowed, Some(kept))
    requires Elements(asked.apiGroups) == {group} && Elements(asked.resources) == {resource}
    ensures forall g, r, v | RuleCovers(kept, g, r, v) :: AllowedBy(allowed, g, r, v)
  {
    hide Narrowed, Elements, Granted, IsProduct, RuleCovers, AllowedBy;
    SingleResourceIsProduct(asked, allowed, group, resource);
    KeptCoveredByAllowedIff(asked, allowed, kept);
  }

  /** Narrowing is monotone in what is allowed. */
  lemma NarrowingIsMonotone(asked: Rule, less: seq<Rule>, more: seq<Rule>, kept: Rule, kept': Option<Rule>)
    requires forall rule | rule in less :: rule in more
    requires Narrowed(asked, less, Some(kept)) && Narrowed(asked, more, kept')
    ensures kept'.Some? && ProductOf(kept) <= ProductOf(kept'.value)
  {
    var ts, ts' := Granted(asked, less), Granted(asked, more);
    forall t | t in ts ensures t in ts' {
      assert TripleAllowed(less, t);
    }
    assert kept'.Some?;
    GrantedInKept(ts', kept'.value);
    KeptIsLeastProduct(asked, less, kept, kept'.value.apiGroups, kept'.value.resources, kept'.value.verbs);
  }

  /** Narrowing what was narrowed changes nothing, as sets. */
  lemma NarrowingIsIdempotent(asked: Rule, allowed: seq<Rule>, kept: Rule, again: Option<Rule>)
    requires Narrowed(asked, allowed, Some(kept)) && Narrowed(kept, allowed, again)
    ensures again.Some? && ProductOf(again.value) == ProductOf(kept)
  {
    var ts := Granted(asked, allowed);
    GrantedInKept(ts, kept);
    assert ts <= Granted(kept, allowed);
    KeptIsLeastProduct(kept, allowed, again.value, kept.apiGroups, kept.resources, kept.verbs);
    KeptIsLeastProduct(asked, allowed, kept, again.value.apiGroups, again.value.resources, again.value.verbs);
  }

  lemma {:induction false} KeptRuleOf(asked: seq<Rule>, allowed: seq<Rule>, out: seq<Rule>, k: nat) returns (a: Rule)
    requires NarrowedList(asked, allowed, out) && k < |out|
    ensures a in asked && Narrowed(a, allowed, Some(out[k]))
    decreases |asked|
  {
    hide Granted, Collects;
    var rest, last := asked[..|asked| - 1], asked[|asked| - 1];
    if Granted(last, allowed) != {} && k == |out| - 1 {
      a := last;
    } else if Granted(last, allowed) != {} {
      a := KeptRuleOf(rest, allowed, out[..|out| - 1], k);
    } else {
      a := KeptRuleOf(rest, allowed, out, k);
    }
  }

  /** The result is made of asked rules in their order: the k-th is what is kept of the
      one at at[k]; of the others nothing is granted. */
  lemma {:induction false} NarrowedInOrder(asked: seq<Rule>, allowed: seq<Rule>, out: seq<Rule>) returns (at: seq<nat>)
    requires NarrowedList(asked, allowed, out)
    ensures |at| == |out| && forall j, k | 0 <= j < k < |at| :: at[j] < at[k]
    ensures forall k | 0 <= k < |at| :: at[k] < |asked| && Narrowed(asked[at[k]], allowed, Some(out[k]))
    ensures forall i: nat | i < |asked| && i !in at :: Narrowed(asked[i], allowed, None)
    decreases |asked|
  {
    hide Granted, Collects;
    at := [];
    if asked != [] {
      var n := |asked| - 1;
      var rest, last := asked[..n], asked[n];
      assert asked == rest + [last];
      if Granted(last, allowed) == {} {
        at := NarrowedInOrder(rest, allowed, out);
      } else {
        var before := NarrowedInOrder(rest, allowed, out[..|out| - 1]);
        at := before + [n];
        assert n in at && forall i | i in before :: i in at;
      }
    }
  }

  /** And every asked rule of which something is granted has its kept rule. */
  lemma {:induction false} RuleKeptOf(asked: seq<Rule>, allowed: seq<Rule>, out: seq<Rule>, a: Rule) returns (k: nat)
    requires NarrowedList(asked, allowed, out) && a in asked && Granted(a, allowed) != {}
    ensures k < |out| && Narrowed(a, allowed, Some(out[k]))
    decreases |asked|
  {
    hide Granted, Collects;
    var rest, last := asked[..|asked| - 1], asked[|asked| - 1];
    assert asked == rest + [last];
    if a == last {
      k := |out| - 1;
    } else if Granted(last, allowed) != {} {
      k := RuleKeptOf(rest, allowed, out[..|out| - 1], a);
    } else {
      k := RuleKeptOf(rest, allowed, out, a);
    }
  }

  /** The result covers nothing that the allowed rules do not, by the library's own
      test, exactly when for every asked rule the granted triples are a product. */
  lemma ResultCoveredIff(asked: seq<Rule>, allowed: seq<Rule>, out: seq<Rule>)
    requires NarrowedList(asked, allowed, out)
    ensures (forall g, r, v | AllowedBy(out, g, r, v) :: AllowedBy(allowed, g, r, v)) <==>
            forall a | a in asked :: IsProduct(Granted(a, allowed))
  {
    hide Granted, Collects, NarrowedList, IsProduct, RuleCovers;
    if forall a | a in asked :: IsProduct(Granted(a, allowed)) {
      forall g, r, v | AllowedBy(out, g, r, v) ensures AllowedBy(allowed, g, r, v) {
        var rule :| rule in out && RuleCovers(rule, g, r, v);
        var k :| 0 <= k < |out| && out[k] == rule;
        var a := KeptRuleOf(asked, allowed, out, k);
        KeptCoveredByAllowedIff(a, allowed, rule);
      }
    }
    if forall g, r, v | AllowedBy(out, g, r, v) :: AllowedBy(allowed, g, r, v) {
      forall a | a in asked ensures IsProduct(Granted(a, allowed)) {
        if Granted(a, allowed) == {} {
          EmptyIsProduct(Granted(a, allowed));
        } else {
          var k := RuleKeptOf(asked, allowed, out, a);
          assert out[k] in out;
          assert forall g, r, v | RuleCovers(out[k], g, r, v) :: AllowedBy(out, g, r, v);
          KeptCoveredByAllowedIff(a, allowed, out[k]);
        }
      }
    }
  }

  lemma EmptyIsProduct(ts: set<Triple>)
    requires ts == {}
    ensures IsProduct(ts)
  {
  }

  lemma SingleResourcesAreProducts(asked: seq<Rule>, allowed: seq<Rule>)
    requires forall a | a in asked :: |Elements(a.apiGroups)| == 1 && |Elements(a.resources)| == 1
    ensures forall a | a in asked :: IsProduct(Granted(a, allowed))
  {
    hide Elements, Granted, IsProduct;
    forall a | a in asked ensures IsProduct(Granted(a, allowed)) {
      var group :| group in Elements(a.apiGroups);
      var resource :| resource in Elements(a.resources);
      OnlyOne(Elements(a.apiGroups), group);
      OnlyOne(Elements(a.resources), resource);
      SingleResourceIsProduct(a, allowed, group, resource);
    }
  }

  /** By the library's own test, the result covers nothing that was not asked for; and if
      each asked rule names one group and one resource, nothing that is not allowed. */
  lemma ResultCovered(asked: seq<Rule>, allowed: seq<Rule>, out: seq<Rule>, g: string, r: string, v: string)
    requires NarrowedList(asked, allowed, out) && AllowedBy(out, g, r, v)
    ensures AllowedBy(asked, g, r, v)
    ensures (forall a | a in asked :: |Elements(a.apiGroups)| == 1 && |Elements(a.resources)| == 1) ==> AllowedBy(allowed, g, r, v)
  {
    hide Granted, Collects, NarrowedList, Elements, IsProduct;
    var rule :| rule in out && RuleCovers(rule, g, r, v);
    var k :| 0 <= k < |out| && out[k] == rule;
    var a := KeptRuleOf(asked, allowed, out, k);
    KeptCoveredByAsked(a, allowed, rule, g, r, v);
    if forall a | a in asked :: |Elements(a.apiGroups)| == 1 && |Elements(a.resources)| == 1 {
      SingleResourcesAreProducts(asked, allowed);
      ResultCoveredIff(asked, allowed, out);
    }
  }

  lemma OnlyOne(s: set<string>, x: string)
    requires |s| == 1 && x in s
    ensures s == {x}
  {
    assert |s - {x}| == 0;
  }
}
