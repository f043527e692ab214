/** RBAC policy rules, and which requests they permit. */
module Rbac {
  import opened Common
  import opened Names

  datatype Rule = Rule(
    verbs: seq<string>,
    apiGroups: seq<string>,
    resources: seq<string>,
    resourceNames: seq<string>,
    nonResourceURLs: seq<string>)

  /** The entry that stands for everything, in groups, resources and verbs alike. */
  const ALL := "*"

  // ------------------------------------------------------- the library's own test

  predicate Covers(allowed: seq<string>, want: string) {
    ALL in allowed || want in allowed
  }

  /** Looks at group, resource and verb, and not at the names of objects. */
  predicate RuleCovers(rule: Rule, group: string, resource: string, verb: string) {
    Covers(rule.apiGroups, group) && Covers(rule.resources, resource) && Covers(rule.verbs, verb)
  }

  /** Some rule of the list covers the group, resource and verb. */
  predicate AllowedBy(allowed: seq<Rule>, group: string, resource: string, verb: string) {
    exists rule | rule in allowed :: RuleCovers(rule, group, resource, verb)
  }

  // --------------------------------------------------- what the API server permits

  /** A request for an object by name. A subresource stands after a slash in the
      resource. */
  datatype Request = Request(group: string, resource: string, verb: string, name: string)

  /** The entry that stands for a subresource of every resource, or the resource
      itself if there is no subresource. */
  function AnyWithSubresource(resource: string): string {
    match SplitFirst(resource, '/')
    case None => resource
    case Some(p) => if p.tail == "" then resource else "*/" + p.tail
  }

  predicate ResourceMatches(resources: seq<string>, resource: string) {
    Covers(resources, resource) || AnyWithSubresource(resource) in resources
  }

  predicate Matches(rule: Rule, group: string, resource: string, verb: string) {
    Covers(rule.apiGroups, group) && ResourceMatches(rule.resources, resource) && Covers(rule.verbs, verb)
  }

  /** A rule that names no objects is about all of them. */
  predicate Permits(rule: Rule, q: Request) {
    Matches(rule, q.group, q.resource, q.verb) && (rule.resourceNames == [] || q.name in rule.resourceNames)
  }

  predicate PermittedBy(rules: seq<Rule>, q: Request) {
    exists rule | rule in rules :: Permits(rule, q)
  }

  lemma SubresourceOfAny(resource: string)
    ensures AnyWithSubresource(AnyWithSubresource(resource)) == AnyWithSubresource(resource)
  {
    match SplitFirst(resource, '/')
    case None =>
    case Some(p) =>
      if p.tail != "" {
        SplitJoined("*", '/', p.tail);
        assert "*" + ['/'] + p.tail == "*/" + p.tail;
      }
  }

  lemma AllHasNoSubresource()
    ensures AnyWithSubresource(ALL) == ALL
  {
    assert SplitFirst(ALL[1..], '/') == None;
    assert ALL[0] == '*';
  }
}
