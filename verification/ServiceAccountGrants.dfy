/** What a ServiceAccount may do with the rules it is given (pkg/util/tenantsa.go), under
    RBAC matching, where a rule may be about objects of certain names only. The library
    drops the names of the rules asked for and does not look at those of the allowed
    ones. */
module ServiceAccountGrants {
  import opened Common
  import opened Rbac
  import Names
  import opened ServiceAccountRules

  // ------------------------------------------------------------------- one rule

  /** Some rule of the list that is about all objects matches the triple. */
  predicate Unrestricted(rules: seq<Rule>, t: Triple) {
    exists rule | rule in rules :: rule.resourceNames == [] && Matches(rule, t.group, t.resource, t.verb)
  }

  /** The entry by which a list matches a resource. */
  lemma ResourceEntry(resources: seq<string>, resource: string) returns (e: string)
    requires ResourceMatches(resources, resource)
    ensures e in resources && (e == ALL || e == resource || e == AnyWithSubresource(resource))
  {
    e := if ALL in resources then ALL else if resource in resources then resource else AnyWithSubresource(resource);
  }

  lemma EntryIsMatched(resources: seq<string>, e: string, resource: string)
    requires ResourceMatches(resources, e)
    requires e == ALL || e == resource || e == AnyWithSubresource(resource)
    ensures ResourceMatches(resources, resource)
  {
    SubresourceOfAny(resource);
    AllHasNoSubresource();
  }

  /** What matches a rule matches a triple of its product, and every rule that matches
      the triple. */
  lemma MatchedByTriple(kept: Rule, group: string, resource: string, verb: string) returns (t: Triple)
    requires Matches(kept, group, resource, verb)
    ensures t in ProductOf(kept)
    ensures forall rule | Matches(rule, t.group, t.resource, t.verb) :: Matches(rule, group, resource, verb)
  {
    hide ResourceMatches, AnyWithSubresource;
    var e := ResourceEntry(kept.resources, resource);
    t := Triple(Entry(kept.apiGroups, group), e, Entry(kept.verbs, verb));
    forall rule | Matches(rule, t.group, t.resource, t.verb) ensures Matches(rule, group, resource, verb) {
      EntryIsMatched(rule.resources, e, resource);
    }
  }

  lemma TripleIsMatched(kept: Rule, t: Triple)
    requires t in ProductOf(kept)
    ensures Matches(kept, t.group, t.resource, t.verb)
  {
  }

  lemma {:induction false} LongerName(names: seq<string>, least: nat) returns (n: string)
    ensures |n| >= least && forall x | x in names :: |x| < |n|
  {
    if names == [] {
      n := seq(least, _ => 'n');
    } else {
      n := LongerName(names[1..], if |names[0]| < least then least else |names[0]| + 1);
    }
  }

  /** A name that no rule of the list mentions. */
  lemma {:induction false} UnmentionedName(rules: seq<Rule>, least: nat := 0) returns (n: string)
    ensures |n| >= least && forall rule, x | rule in rules && x in rule.resourceNames :: |x| < |n|
    ensures forall rule | rule in rules :: n !in rule.resourceNames
    decreases |rules|
  {
    if rules == [] {
      n := seq(least, _ => 'n');
    } else {
      var longer := LongerName(rules[0].resourceNames, least);
      n := UnmentionedName(rules[1..], |longer|);
    }
  }

  /** A rule about all objects stays within a list of rules exactly when each triple of
      its product is matched by one of them that is about all objects. */
  lemma PermitsWithinIff(kept: Rule, bound: seq<Rule>)
    requires kept.resourceNames == []
    ensures (forall q | Permits(kept, q) :: PermittedBy(bound, q)) <==> forall t | t in ProductOf(kept) :: Unrestricted(bound, t)
  {
    hide Matches, ProductOf;
    if forall q | Permits(kept, q) :: PermittedBy(bound, q) {
      var n := UnmentionedName(bound);
      forall t | t in ProductOf(kept) ensures Unrestricted(bound, t) {
        TripleIsMatched(kept, t);
        var q := Request(t.group, t.resource, t.verb, n);
        assert Permits(kept, q);
        var rule :| rule in bound && Permits(rule, q);
      }
    }
    if forall t | t in ProductOf(kept) :: Unrestricted(bound, t) {
      forall q | Permits(kept, q) ensures PermittedBy(bound, q) {
        var t := MatchedByTriple(kept, q.group, q.resource, q.verb);
        var rule :| rule in bound && rule.resourceNames == [] && Matches(rule, t.group, t.resource, t.verb);
        assert Permits(rule, q);
      }
    }
  }

  /** The kept rule permits nothing that the asked rule does not exactly when the asked
      rule is about all objects. */
  lemma KeptWithinAskedIff(asked: Rule, allowed: seq<Rule>, kept: Rule)
    requires Narrowed(asked, allowed, Some(kept))
    ensures (forall q | Permits(kept, q) :: Permits(asked, q)) <==> asked.resourceNames == []
  {
    hide Matches, Granted;
    KeptIsLeastProduct(asked, allowed, kept, [], [], []);
    var some :| some in Granted(asked, allowed);
    TripleIsMatched(kept, some);
    if forall q | Permits(kept, q) :: Permits(asked, q) {
      var n := UnmentionedName([asked]);
      var q := Request(some.group, some.resource, some.verb, n);
      assert Permits(kept, q);
      assert asked in [asked];
    }
    if asked.resourceNames == [] {
      forall q | Permits(kept, q) ensures Permits(asked, q) {
        var t := MatchedByTriple(kept, q.group, q.resource, q.verb);
        TripleIsMatched(asked, t);
      }
    }
  }

  // ------------------------------------------------------------- the whole result

  /** A triple whose group, resource and verb are each of some triple of the set. */
  predicate Mixture(ts: set<Triple>, t: Triple) {
    t.group in Groups(ts) && t.resource in Resources(ts) && t.verb in Verbs(ts)
  }

  /** Whichever triples of the set are mixed, some rule of the list that is about all
      objects matches the mixture. */
  predicate MixturesUnrestricted(ts: set<Triple>, rules: seq<Rule>) {
    forall g, r, v | g in Groups(ts) && r in Resources(ts) && v in Verbs(ts) :: Unrestricted(rules, Triple(g, r, v))
  }

  lemma MixturesOf(ts: set<Triple>, rules: seq<Rule>)
    ensures MixturesUnrestricted(ts, rules) <==> forall t | Mixture(ts, t) :: Unrestricted(rules, t)
  {
    hide Groups, Resources, Verbs, Unrestricted;
    if MixturesUnrestricted(ts, rules) {
      forall t | Mixture(ts, t) ensures Unrestricted(rules, t) {
        assert t == Triple(t.group, t.resource, t.verb);
      }
    }
    if forall t | Mixture(ts, t) :: Unrestricted(rules, t) {
      forall g, r, v | g in Groups(ts) && r in Resources(ts) && v in Verbs(ts) ensures Unrestricted(rules, Triple(g, r, v)) {
        assert Mixture(ts, Triple(g, r, v));
      }
    }
  }

  lemma KeptIsMixture(kept: Rule, ts: set<Triple>, t: Triple)
    requires Collects(kept, ts)
    ensures t in ProductOf(kept) <==> Mixture(ts, t)
  {
    assert t.group in kept.apiGroups <==> t.group in Elements(kept.apiGroups);
    assert t.resource in kept.resources <==> t.resource in Elements(kept.resources);
    assert t.verb in kept.verbs <==> t.verb in Elements(kept.verbs);
  }

  lemma KeptIsMixtures(kept: Rule, ts: set<Triple>, rules: seq<Rule>)
    requires Collects(kept, ts)
    ensures (forall t | t in ProductOf(kept) :: Unrestricted(rules, t)) <==> MixturesUnrestricted(ts, rules)
  {
    hide Collects, ProductOf, Unrestricted, MixturesUnrestricted, Mixture;
    MixturesOf(ts, rules);
    forall t ensures t in ProductOf(kept) <==> Mixture(ts, t) {
      KeptIsMixture(kept, ts, t);
    }
  }

  lemma KeptWithinIff(asked: Rule, allowed: seq<Rule>, kept: Rule, bound: seq<Rule>)
    requires Narrowed(asked, allowed, Some(kept))
    ensures (forall q | Permits(kept, q) :: PermittedBy(bound, q)) <==> MixturesUnrestricted(Granted(asked, allowed), bound)
  {
    hide Granted, Permits, PermittedBy, Unrestricted, MixturesUnrestricted;
    PermitsWithinIff(kept, bound);
    KeptIsMixtures(kept, Granted(asked, allowed), bound);
  }

  /** Exactly when all that the ServiceAccount may do with its rules is permitted by a
      given list of rules as well. */
  lemma ResultWithinIff(asked: seq<Rule>, allowed: seq<Rule>, out: seq<Rule>, bound: seq<Rule>)
    requires NarrowedList(asked, allowed, out)
    ensures (forall q | PermittedBy(out, q) :: PermittedBy(bound, q)) <==>
            forall a | a in asked :: MixturesUnrestricted(Granted(a, allowed), bound)
  {
    hide Granted, Collects, NarrowedList, MixturesUnrestricted, Permits;
    if forall a | a in asked :: MixturesUnrestricted(Granted(a, allowed), bound) {
      forall q | PermittedBy(out, q) ensures PermittedBy(bound, q) {
        var rule :| rule in out && Permits(rule, q);
        var k :| 0 <= k < |out| && out[k] == rule;
        var a := KeptRuleOf(asked, allowed, out, k);
        KeptWithinIff(a, allowed, rule, bound);
      }
    }
    if forall q | PermittedBy(out, q) :: PermittedBy(bound, q) {
      forall a | a in asked ensures MixturesUnrestricted(Granted(a, allowed), bound) {
        if Granted(a, allowed) == {} {
          NoMixtures(Granted(a, allowed), bound);
        } else {
          var k := RuleKeptOf(asked, allowed, out, a);
          assert out[k] in out;
          assert forall q | Permits(out[k], q) :: PermittedBy(out, q);
          KeptWithinIff(a, allowed, out[k], bound);
        }
      }
    }
  }

  lemma NoMixtures(ts: set<Triple>, rules: seq<Rule>)
    requires ts == {}
    ensures MixturesUnrestricted(ts, rules)
  {
    hide Unrestricted;
  }

  /** The second half of the comment on the function: exactly when the ServiceAccount may
      do nothing that the tenant may not. */
  lemma ResultWithinAllowedIff(asked: seq<Rule>, allowed: seq<Rule>, out: seq<Rule>)
    requires NarrowedList(asked, allowed, out)
    ensures (forall q | PermittedBy(out, q) :: PermittedBy(allowed, q)) <==>
            forall a | a in asked :: MixturesUnrestricted(Granted(a, allowed), allowed)
  {
    hide MixturesUnrestricted, Granted, NarrowedList;
    ResultWithinIff(asked, allowed, out, allowed);
  }

  /** And the first: exactly when it may do nothing that its role does not ask for. */
  lemma ResultWithinAskedIff(asked: seq<Rule>, allowed: seq<Rule>, out: seq<Rule>)
    requires NarrowedList(asked, allowed, out)
    ensures (forall q | PermittedBy(out, q) :: PermittedBy(asked, q)) <==>
            forall a | a in asked :: MixturesUnrestricted(Granted(a, allowed), asked)
  {
    hide MixturesUnrestricted, Granted, NarrowedList;
    ResultWithinIff(asked, allowed, out, asked);
  }

  predicate NamesNoObjects(rules: seq<Rule>) {
    forall rule | rule in rules :: rule.resourceNames == []
  }

  predicate SingleResources(rules: seq<Rule>) {
    forall rule | rule in rules :: |Elements(rule.apiGroups)| == 1 && |Elements(rule.resources)| == 1
  }

  lemma AskedIsUnrestricted(asked: seq<Rule>, allowed: seq<Rule>, a: Rule)
    requires a in asked && a.resourceNames == []
    ensures MixturesUnrestricted(Granted(a, allowed), asked)
  {
    hide MixturesUnrestricted, Granted;
    var ts := Granted(a, allowed);
    MixturesOf(ts, asked);
    forall t | Mixture(ts, t) ensures Unrestricted(asked, t) {
      MixtureIsAsked(a, allowed, t);
      TripleIsMatched(a, t);
    }
  }

  lemma MixtureIsAsked(a: Rule, allowed: seq<Rule>, t: Triple)
    requires Mixture(Granted(a, allowed), t)
    ensures t in ProductOf(a)
  {
  }

  lemma MixtureOfProduct(ts: set<Triple>, t: Triple)
    requires IsProduct(ts) && Mixture(ts, t)
    ensures t in ts
  {
    hide IsProduct;
    var x :| x in ts && x.group == t.group;
    var y :| y in ts && y.resource == t.resource;
    var z :| z in ts && z.verb == t.verb;
    Mixed(ts, x, y, z);
    assert t == Triple(x.group, y.resource, z.verb);
  }

  lemma ProductIsUnrestricted(allowed: seq<Rule>, a: Rule)
    requires NamesNoObjects(allowed) && IsProduct(Granted(a, allowed))
    ensures MixturesUnrestricted(Granted(a, allowed), allowed)
  {
    hide IsProduct, Granted, MixturesUnrestricted, Mixture, Unrestricted;
    MixturesOf(Granted(a, allowed), allowed);
    forall t | Mixture(Granted(a, allowed), t) ensures Unrestricted(allowed, t) {
      MixtureOfProduct(Granted(a, allowed), t);
      GrantedIsUnrestricted(allowed, a, t);
    }
  }

  lemma GrantedIsUnrestricted(allowed: seq<Rule>, a: Rule, t: Triple)
    requires NamesNoObjects(allowed) && t in Granted(a, allowed)
    ensures Unrestricted(allowed, t)
  {
    assert TripleAllowed(allowed, t);
    var rule :| rule in allowed && RuleCovers(rule, t.group, t.resource, t.verb);
    assert Matches(rule, t.group, t.resource, t.verb);
  }

  /** The comment holds on roles that name no objects, as to what they ask for; and as
      to what the tenant may have, if the allowed rules name none and each rule of the
      role names one group and one resource. */
  lemma ServiceAccountIsConfined(asked: seq<Rule>, allowed: seq<Rule>, out: seq<Rule>, q: Request)
    requires NarrowedList(asked, allowed, out) && PermittedBy(out, q)
    ensures NamesNoObjects(asked) ==> PermittedBy(asked, q)
    ensures NamesNoObjects(allowed) && SingleResources(asked) ==> PermittedBy(allowed, q)
  {
    hide NarrowedList, Granted, MixturesUnrestricted, IsProduct, PermittedBy, Elements;
    if NamesNoObjects(asked) {
      forall a | a in asked ensures MixturesUnrestricted(Granted(a, allowed), asked) {
        AskedIsUnrestricted(asked, allowed, a);
      }
      ResultWithinAskedIff(asked, allowed, out);
    }
    if NamesNoObjects(allowed) && SingleResources(asked) {
      SingleResourcesAreProducts(asked, allowed);
      forall a | a in asked ensures MixturesUnrestricted(Granted(a, allowed), allowed) {
        ProductIsUnrestricted(allowed, a);
      }
      ResultWithinAllowedIff(asked, allowed, out);
    }
  }

  // ------------------------------------------------------- where the comment fails

  /** A role about the object "mine" gives a rule about all objects. */
  lemma NamesAreDropped(out: seq<Rule>, name: string)
    requires NarrowedList([Rule(["get"], ["a"], ["x"], ["mine"], [])], [Rule(["get"], ["a"], ["x"], [], [])], out)
    requires name != "mine"
    ensures PermittedBy(out, Request("a", "x", "get", name))
    ensures !PermittedBy([Rule(["get"], ["a"], ["x"], ["mine"], [])], Request("a", "x", "get", name))
  {
    GivenWhole(["mine"], [], out, name);
  }

  /** So does an allowed rule about the object "mine", where the role names none. */
  lemma NamesAreIgnored(out: seq<Rule>, name: string)
    requires NarrowedList([Rule(["get"], ["a"], ["x"], [], [])], [Rule(["get"], ["a"], ["x"], ["mine"], [])], out)
    requires name != "mine"
    ensures PermittedBy(out, Request("a", "x", "get", name))
    ensures !PermittedBy([Rule(["get"], ["a"], ["x"], ["mine"], [])], Request("a", "x", "get", name))
  {
    GivenWhole([], ["mine"], out, name);
  }

  lemma GivenWhole(askedNames: seq<string>, allowedNames: seq<string>, out: seq<Rule>, name: string)
    requires NarrowedList([Rule(["get"], ["a"], ["x"], askedNames, [])], [Rule(["get"], ["a"], ["x"], allowedNames, [])], out)
    ensures PermittedBy(out, Request("a", "x", "get", name))
  {
    hide NarrowedList;
    var a, r, t := Rule(["get"], ["a"], ["x"], askedNames, []), Rule(["get"], ["a"], ["x"], allowedNames, []), Triple("a", "x", "get");
    assert r in [r] && RuleCovers(r, "a", "x", "get");
    assert t in Granted(a, [r]);
    assert a in [a];
    var k := RuleKeptOf([a], [r], out, a);
    GrantedInKept(Granted(a, [r]), out[k]);
    TripleIsMatched(out[k], t);
    assert out[k] in out && Permits(out[k], Request("a", "x", "get", name));
  }

  /** Allowed, one resource of each of two groups. */
  const ONE_OF_EACH := [Rule(["get"], ["a"], ["x"], [], []), Rule(["get"], ["b"], ["y"], [], [])]

  lemma OneOfEachCovers(group: string, resource: string)
    requires group in ["a", "b"] && resource in ["x", "y"]
    ensures AllowedBy(ONE_OF_EACH, group, resource, "get") <==> (group == "a" <==> resource == "x")
  {
    assert "*"[0] == '*' && "a"[0] == 'a' && "b"[0] == 'b' && "x"[0] == 'x' && "y"[0] == 'y';
    var p, q := ONE_OF_EACH[0], ONE_OF_EACH[1];
    assert RuleCovers(p, group, resource, "get") <==> group == "a" && resource == "x";
    assert RuleCovers(q, group, resource, "get") <==> group == "b" && resource == "y";
    assert p in ONE_OF_EACH && q in ONE_OF_EACH;
    forall rule | rule in ONE_OF_EACH ensures rule == p || rule == q {}
  }

  /** A role whose one rule asks for both resources of both groups is kept whole,
      although no rule of either list names an object. */
  lemma ProductMayExceedAllowed(out: seq<Rule>, name: string)
    requires NarrowedList([Rule(["get"], ["a", "b"], ["x", "y"], [], [])], ONE_OF_EACH, out)
    ensures PermittedBy(out, Request("a", "y", "get", name)) && !PermittedBy(ONE_OF_EACH, Request("a", "y", "get", name))
  {
    hide AllowedBy, NarrowedList;
    var asked := Rule(["get"], ["a", "b"], ["x", "y"], [], []);
    var ts := Granted(asked, ONE_OF_EACH);
    OneOfEachCovers("a", "x");
    OneOfEachCovers("b", "y");
    assert "a"[0] == 'a' && "b"[0] == 'b' && "x"[0] == 'x' && "y"[0] == 'y';
    assert Triple("a", "x", "get") in ts && Triple("b", "y", "get") in ts;
    assert asked in [asked];
    var k := RuleKeptOf([asked], ONE_OF_EACH, out, asked);
    KeptIsMixture(out[k], ts, Triple("a", "y", "get"));
    TripleIsMatched(out[k], Triple("a", "y", "get"));
    assert out[k] in out && Permits(out[k], Request("a", "y", "get", name));
    NeitherPermits(name);
  }

  lemma NeitherPermits(name: string)
    ensures !PermittedBy(ONE_OF_EACH, Request("a", "y", "get", name))
  {
    hide AllowedBy;
    OneOfEachCovers("a", "y");
    assert AnyWithSubresource("y") == "y" by { assert "y"[0] == 'y' && "y"[1..] == "" && Names.SplitFirst("", '/') == None; }
    forall rule | rule in ONE_OF_EACH ensures !Permits(rule, Request("a", "y", "get", name)) {
      NotCovered(rule, "a", "y", "get");
    }
  }

  lemma NotCovered(rule: Rule, group: string, resource: string, verb: string)
    requires rule in ONE_OF_EACH && !AllowedBy(ONE_OF_EACH, group, resource, verb)
    ensures !RuleCovers(rule, group, resource, verb)
  {
  }
}
