/** List queries: ConvertInternalListOptions on the way up and
    FilterUnstructuredList on the way back. Asking the shared upstream list the
    translated question gives what asking the tenant's own view would. */
module Selectors {
  import opened Common
  import opened Names

  // -------------------------------------------------------------- field selectors

  datatype Term = Equal(field: string, value: string) | NotEqual(field: string, value: string)

  /** A conjunction of terms. */
  type Selector = seq<Term>

  /** ListOptionScope: the resource that a list is against. */
  datatype Scope = Scope(namespaceScoped: bool, kind: GroupVersionKind)

  predicate IsCRDScope(scope: Scope) {
    IsCRDType(GroupVersion(scope.kind), scope.kind.kind)
  }

  /** The value of a field of an object; one it does not have reads as empty. */
  function FieldOf(o: Object, field: string): string {
    if field == "metadata.name" then o.name
    else if field == "metadata.namespace" then o.namespace
    else if field == "involvedObject.namespace" then o.involvedNamespace
    else if field in o.otherFields then o.otherFields[field]
    else ""
  }

  predicate TermMatches(t: Term, o: Object) {
    (FieldOf(o, t.field) == t.value) == t.Equal?
  }

  /** What a term asks, spelled out for the fields that are rewritten. */
  lemma TermMatchesSpelled(o: Object, value: string)
    ensures TermMatches(Equal("metadata.name", value), o) <==> o.name == value
    ensures TermMatches(NotEqual("metadata.name", value), o) <==> o.name != value
    ensures TermMatches(Equal("metadata.namespace", value), o) <==> o.namespace == value
    ensures TermMatches(NotEqual("metadata.namespace", value), o) <==> o.namespace != value
    ensures TermMatches(Equal("involvedObject.namespace", value), o) <==> o.involvedNamespace == value
    ensures TermMatches(NotEqual("involvedObject.namespace", value), o) <==> o.involvedNamespace != value
  {
    assert "metadata.name" != "metadata.namespace" by { assert |"metadata.name"| != |"metadata.namespace"|; }
    assert "involvedObject.namespace"[0] == 'i' && "metadata.name"[0] == 'm' && "metadata.namespace"[0] == 'm';
  }

  predicate Matches(sel: Selector, o: Object) {
    forall t | t in sel :: TermMatches(t, o)
  }

  predicate IsNamespaceField(field: string) {
    field == "involvedObject.namespace" || field == "metadata.namespace"
  }

  /** The function that the options' selector is transformed with. */
  function TranslateValue(tenantID: string, scope: Scope, field: string, value: string): string {
    if value == "" || tenantID == "" then value
    else if IsNamespaceField(field) then UpstreamNamespace(tenantID, value)
    else if field == "metadata.name" && !scope.namespaceScoped then
      ConvertTenantObjectNameToUpstream(value, tenantID, scope.kind)
    else value
  }

  function TranslateTerm(tenantID: string, scope: Scope, t: Term): Term {
    t.(value := TranslateValue(tenantID, scope, t.field, t.value))
  }

  function Translate(tenantID: string, scope: Scope, sel: Selector): (r: Selector)
    ensures |r| == |sel| && forall k | 0 <= k < |sel| :: r[k] == TranslateTerm(tenantID, scope, sel[k])
  {
    seq(|sel|, k requires 0 <= k < |sel| => TranslateTerm(tenantID, scope, sel[k]))
  }

  /** What becomes of a term, spelled out: of the namespaces those without the prefix
      take it, and so does the name of a cluster-scoped object, where its kind puts it.
      Without a tenant nothing changes. */
  lemma TermSpelled(tenantID: string, scope: Scope, t: Term)
    ensures var r := TranslateTerm(tenantID, scope, t);
            && r.field == t.field && r.Equal? == t.Equal?
            && (tenantID == "" || t.value == "" ==> r == t)
            && (tenantID != "" && t.value != "" ==>
                  if t.field == "metadata.namespace" || t.field == "involvedObject.namespace" then
                    r.value == if tenantID + "-" <= t.value then t.value else tenantID + "-" + t.value
                  else if t.field == "metadata.name" && !scope.namespaceScoped then
                    r.value == ConvertTenantObjectNameToUpstream(t.value, tenantID, scope.kind)
                  else
                    r == t)
  {
  }

  /** The library of selectors drops a term that has neither field nor value when it
      transforms a selector. */
  predicate Blank(t: Term) {
    t.field == "" && t.value == ""
  }

  function WithoutBlanks(sel: Selector): Selector
    decreases |sel|
  {
    if sel == [] then []
    else
      var rest, last := sel[..|sel| - 1], sel[|sel| - 1];
      WithoutBlanks(rest) + if Blank(last) then [] else [last]
  }

  /** That changes nothing but for the blank terms themselves. */
  lemma {:induction false} BlanksDropped(sel: Selector, o: Object)
    ensures Matches(sel, o) <==>
            Matches(WithoutBlanks(sel), o) && forall t | t in sel && t.field == "" && t.value == "" :: TermMatches(t, o)
    ensures forall t :: t in WithoutBlanks(sel) <==> t in sel && !(t.field == "" && t.value == "")
    decreases |sel|
  {
    hide TermMatches;
    if sel != [] {
      var rest, last := sel[..|sel| - 1], sel[|sel| - 1];
      assert sel == rest + [last];
      BlanksDropped(rest, o);
      assert Matches(sel, o) <==> Matches(rest, o) && TermMatches(last, o);
      var kept := WithoutBlanks(rest);
      if !Blank(last) { assert Matches(kept + [last], o) <==> Matches(kept, o) && TermMatches(last, o); }
    }
  }

  /** The options that are not rewritten, and the options of the v1 API, which another
      package makes of the internal ones, unless it fails. */
  type OtherOptions(!new, ==)
  type V1ListOptions(!new, ==)

  /** The options of a list request, whose selector is rewritten in place. */
  class ListOptions {
    var fieldSelector: Option<Selector>
    const others: OtherOptions

    constructor (fieldSelector: Option<Selector>, others: OtherOptions)
      ensures this.fieldSelector == fieldSelector && this.others == others
    {
      this.fieldSelector, this.others := fieldSelector, others;
    }

    method ConvertInternalListOptions(tenantID: string, scope: Scope, convert: (Option<Selector>, OtherOptions) -> Option<V1ListOptions>)
      returns (out: Option<V1ListOptions>)
      modifies this
      ensures out == convert(fieldSelector, others)
      ensures fieldSelector == if old(fieldSelector).None? then None
                               else Some(Translate(tenantID, scope, WithoutBlanks(old(fieldSelector).value)))
    {
      if fieldSelector.Some? {
        var terms := fieldSelector.value;
        var translated: Selector := [];
        for k := 0 to |terms|
          invariant translated == Translate(tenantID, scope, WithoutBlanks(terms[..k]))
        {
          assert terms[..k + 1][..k] == terms[..k];
          var t := TranslateTerm(tenantID, scope, terms[k]);
          if !Blank(t) { translated := translated + [t]; }
        }
        assert terms[..|terms|] == terms;
        fieldSelector := Some(translated);
      }
      return convert(fieldSelector, others);
    }
  }

  // ------------------------------------------------------------------------ lists

  function Filter(f: Object -> bool, list: seq<Object>): seq<Object> {
    if list == [] then []
    else if f(list[0]) then [list[0]] + Filter(f, list[1..])
    else Filter(f, list[1..])
  }

  function Map(f: Object -> Object, list: seq<Object>): seq<Object> {
    if list == [] then [] else [f(list[0])] + Map(f, list[1..])
  }

  function Owned(tenantID: string, namespaceScoped: bool, list: seq<Object>): seq<Object> {
    Filter((o: Object) => UpstreamObjectBelongsToTenant(o, tenantID, namespaceScoped), list)
  }

  function Selected(sel: Selector, list: seq<Object>): seq<Object> {
    Filter((o: Object) => Matches(sel, o), list)
  }

  lemma {:induction false} FilterAppend(f: Object -> bool, list: seq<Object>, o: Object)
    ensures Filter(f, list + [o]) == Filter(f, list) + if f(o) then [o] else []
  {
    if list == [] {
    } else {
      assert (list + [o])[1..] == list[1..] + [o];
      FilterAppend(f, list[1..], o);
    }
  }

  method FilterUnstructuredList(items: seq<Object>, tenantID: string, isNamespaceScoped: bool) returns (filtered: seq<Object>)
    ensures filtered == Owned(tenantID, isNamespaceScoped, items)
  {
    filtered := [];
    for i := 0 to |items|
      invariant filtered == Owned(tenantID, isNamespaceScoped, items[..i])
    {
      FilterAppend((o: Object) => UpstreamObjectBelongsToTenant(o, tenantID, isNamespaceScoped), items[..i], items[i]);
      assert items[..i + 1] == items[..i] + [items[i]];
      if UpstreamObjectBelongsToTenant(items[i], tenantID, isNamespaceScoped) {
        filtered := filtered + [items[i]];
      }
    }
    assert items[..|items|] == items;
  }

  // ------------------------------------------------------------- the tenant's view

  function ViewName(o: Object, tenantID: string, namespaceScoped: bool): string {
    if IsCRDObject(o) then
      match SplitFirst(o.name, '.')
      case None => o.name
      case Some(p) => p.head + "." + TrimTenantIDPrefix(tenantID, p.tail)
    else if namespaceScoped then o.name
    else TrimTenantIDPrefix(tenantID, o.name)
  }

  /** How the tenant sees an upstream object of its own. */
  function View(o: Object, tenantID: string, namespaceScoped: bool): Object {
    o.(namespace := TrimTenantIDPrefix(tenantID, o.namespace),
       name := ViewName(o, tenantID, namespaceScoped),
       involvedNamespace := TrimTenantIDPrefix(tenantID, o.involvedNamespace))
  }

  /** What an object of the tenant's view is upstream. */
  function Image(o: Object, tenantID: string, scope: Scope): Object {
    o.(namespace := UpstreamNamespace(tenantID, o.namespace),
       name := if scope.namespaceScoped then o.name else ConvertTenantObjectNameToUpstream(o.name, tenantID, scope.kind),
       involvedNamespace := UpstreamNamespace(tenantID, o.involvedNamespace))
  }

  /** A namespace of the tenant as upstream stores it: none at all, or the prefix
      before a name that tenants may give. */
  predicate PlacedNamespace(ns: string, tenantID: string) {
    ns == "" ||
    (HasPrefix(ns, Prefix(tenantID)) && ns != Prefix(tenantID)
     && NamespaceNameForTenant(tenantID, TrimTenantIDPrefix(tenantID, ns)))
  }

  /** An object of the kind that the list is of, in namespaces as upstream stores them,
      and with a name after the prefix. */
  predicate Placed(o: Object, tenantID: string, scope: Scope) {
    && PlacedNamespace(o.namespace, tenantID) && PlacedNamespace(o.involvedNamespace, tenantID)
    && if scope.namespaceScoped then !IsCRDObject(o)
       else IsCRDObject(o) == IsCRDScope(scope) && o.name != Prefix(tenantID)
  }

  /** The tenant's objects are the images of their views. */
  lemma ImageOfView(o: Object, tenantID: string, scope: Scope)
    requires Placed(o, tenantID, scope) && UpstreamObjectBelongsToTenant(o, tenantID, scope.namespaceScoped)
    ensures Image(View(o, tenantID, scope.namespaceScoped), tenantID, scope) == o
  {
    NamespaceOfView(o.namespace, tenantID);
    NamespaceOfView(o.involvedNamespace, tenantID);
    if IsCRDObject(o) {
      CRDOfView(o.name, tenantID);
    } else if !scope.namespaceScoped {
      PrefixTrimmed(tenantID, o.name);
    }
  }

  lemma NamespaceOfView(ns: string, tenantID: string)
    requires PlacedNamespace(ns, tenantID)
    ensures UpstreamNamespace(tenantID, TrimTenantIDPrefix(tenantID, ns)) == ns
    ensures TrimTenantIDPrefix(tenantID, ns) == "" <==> ns == ""
  {
    if ns != "" { PrefixTrimmed(tenantID, ns); }
  }

  lemma CRDOfView(name: string, tenantID: string)
    requires CRDNameBelongs(name, tenantID)
    ensures var p := SplitFirst(name, '.').value;
            var seen := p.head + "." + TrimTenantIDPrefix(tenantID, p.tail);
            '.' in seen && ConvertCRDNameToUpstream(seen, tenantID) == name
  {
    var p := SplitFirst(name, '.').value;
    var group := TrimTenantIDPrefix(tenantID, p.tail);
    SplitJoined(p.head, '.', group);
    assert p.head + "." + group == p.head + ['.'] + group;
    PrefixTrimmed(tenantID, p.tail);
    assert (p.head + ['.'] + group)[|p.head|] == '.';
  }

  // --------------------------------------------------------- what a term asks for

  /** A term as the tenant means it: a namespace written with the prefix is the one
      without it. */
  function NormalTerm(tenantID: string, t: Term): Term {
    if IsNamespaceField(t.field) && HasPrefix(t.value, Prefix(tenantID)) && t.value != Prefix(tenantID)
    then t.(value := TrimTenantIDPrefix(tenantID, t.value))
    else t
  }

  lemma NormalTermSpelled(tenantID: string, field: string, value: string)
    requires field == "metadata.namespace" || field == "involvedObject.namespace"
    ensures value != "" ==> NormalTerm(tenantID, Equal(field, tenantID + "-" + value)) == Equal(field, value)
    ensures value != "" ==> NormalTerm(tenantID, NotEqual(field, tenantID + "-" + value)) == NotEqual(field, value)
    ensures !(tenantID + "-" <= value) ==> NormalTerm(tenantID, Equal(field, value)) == Equal(field, value)
    ensures !(tenantID + "-" <= value) ==> NormalTerm(tenantID, NotEqual(field, value)) == NotEqual(field, value)
  {
    PrefixAdded(tenantID, value);
  }

  function Normal(tenantID: string, sel: Selector): (r: Selector)
    ensures |r| == |sel| && forall k | 0 <= k < |sel| :: r[k] == NormalTerm(tenantID, sel[k])
  {
    seq(|sel|, k requires 0 <= k < |sel| => NormalTerm(tenantID, sel[k]))
  }

  lemma NamespaceTerm(ns: string, tenantID: string, value: string)
    requires PlacedNamespace(ns, tenantID)
    ensures var meant := if HasPrefix(value, Prefix(tenantID)) && value != Prefix(tenantID)
                         then TrimTenantIDPrefix(tenantID, value) else value;
            var asked := if value == "" then value else UpstreamNamespace(tenantID, value);
            ns == asked <==> TrimTenantIDPrefix(tenantID, ns) == meant
  {
    NamespaceOfView(ns, tenantID);
    PrefixAdded(tenantID, value);
    if HasPrefix(value, Prefix(tenantID)) { PrefixTrimmed(tenantID, value); }
    if ns != "" { PrefixTrimmed(tenantID, ns); }
  }

  lemma NameTerm(o: Object, tenantID: string, scope: Scope, value: string)
    requires tenantID != "" && Placed(o, tenantID, scope) && !scope.namespaceScoped
    requires UpstreamObjectBelongsToTenant(o, tenantID, scope.namespaceScoped)
    ensures var asked := if value == "" then value else ConvertTenantObjectNameToUpstream(value, tenantID, scope.kind);
            o.name == asked <==> ViewName(o, tenantID, scope.namespaceScoped) == value
  {
    if IsCRDObject(o) {
      CRDOfView(o.name, tenantID);
      var seen := ViewName(o, tenantID, scope.namespaceScoped);
      if '.' in value && ConvertCRDNameToUpstream(value, tenantID) == o.name {
        CRDConversionInjective(value, seen, tenantID, tenantID);
      }
    } else {
      PrefixTrimmed(tenantID, o.name);
      PrefixAdded(tenantID, value);
    }
  }

  /** Term by term, the question asked upstream is the one the tenant meant. */
  lemma TermKept(o: Object, tenantID: string, scope: Scope, t: Term)
    requires tenantID != "" && Placed(o, tenantID, scope)
    requires UpstreamObjectBelongsToTenant(o, tenantID, scope.namespaceScoped)
    ensures TermMatches(TranslateTerm(tenantID, scope, t), o) ==
            TermMatches(NormalTerm(tenantID, t), View(o, tenantID, scope.namespaceScoped))
  {
    if t.field == "metadata.namespace" {
      NamespaceTerm(o.namespace, tenantID, t.value);
    } else if t.field == "involvedObject.namespace" {
      NamespaceTerm(o.involvedNamespace, tenantID, t.value);
    } else if t.field == "metadata.name" && !scope.namespaceScoped {
      NameTerm(o, tenantID, scope, t.value);
    }
  }

  lemma SelectorKept(o: Object, tenantID: string, scope: Scope, sel: Selector)
    requires tenantID != "" && Placed(o, tenantID, scope)
    requires UpstreamObjectBelongsToTenant(o, tenantID, scope.namespaceScoped)
    ensures Matches(Translate(tenantID, scope, sel), o) ==
            Matches(Normal(tenantID, sel), View(o, tenantID, scope.namespaceScoped))
  {
    hide TermMatches, TranslateTerm, NormalTerm, View, Placed, UpstreamObjectBelongsToTenant;
    var up, own, v := Translate(tenantID, scope, sel), Normal(tenantID, sel), View(o, tenantID, scope.namespaceScoped);
    forall k | 0 <= k < |sel| ensures TermMatches(up[k], o) == TermMatches(own[k], v) {
      TermKept(o, tenantID, scope, sel[k]);
    }
    if Matches(up, o) {
      forall t | t in own ensures TermMatches(t, v) {
        var k :| 0 <= k < |own| && own[k] == t;
        assert up[k] in up;
      }
    }
    if Matches(own, v) {
      forall t | t in up ensures TermMatches(t, o) {
        var k :| 0 <= k < |up| && up[k] == t;
        assert own[k] in own;
      }
    }
  }

  // ------------------------------------------------------------ the whole diagram

  /** Select upstream with the translated selector and keep the tenant's objects; or
      keep them, view them, select with the selector as meant and go back up: the same
      objects in the same order. */
  predicate Commutes(list: seq<Object>, tenantID: string, scope: Scope, sel: Selector) {
    Owned(tenantID, scope.namespaceScoped, Selected(Translate(tenantID, scope, sel), list)) ==
    Map((o: Object) => Image(o, tenantID, scope),
        Selected(Normal(tenantID, sel),
                 Map((o: Object) => View(o, tenantID, scope.namespaceScoped),
                     Owned(tenantID, scope.namespaceScoped, list))))
  }

  /** Every object of the list that the tenant owns is placed. */
  predicate AllPlaced(list: seq<Object>, tenantID: string, scope: Scope) {
    forall o | o in list && UpstreamObjectBelongsToTenant(o, tenantID, scope.namespaceScoped) :: Placed(o, tenantID, scope)
  }

  /** For any upstream list of such objects, and any selector. */
  lemma {:induction false} QueriesCommute(list: seq<Object>, tenantID: string, scope: Scope, sel: Selector)
    requires tenantID != "" && AllPlaced(list, tenantID, scope)
    ensures Commutes(list, tenantID, scope, sel)
  {
    hide Matches, Image, View, Placed, UpstreamObjectBelongsToTenant;
    if list != [] {
      QueriesCommute(list[1..], tenantID, scope, sel);
      var o := list[0];
      if UpstreamObjectBelongsToTenant(o, tenantID, scope.namespaceScoped) {
        SelectorKept(o, tenantID, scope, sel);
        ImageOfView(o, tenantID, scope);
      } else {
        SelectedDrops(o, list[1..], tenantID, scope.namespaceScoped, Translate(tenantID, scope, sel));
      }
      assert [o] + list[1..] == list;
    }
  }

  lemma SelectedDrops(o: Object, rest: seq<Object>, tenantID: string, namespaceScoped: bool, sel: Selector)
    requires !UpstreamObjectBelongsToTenant(o, tenantID, namespaceScoped)
    ensures Owned(tenantID, namespaceScoped, Selected(sel, [o] + rest)) == Owned(tenantID, namespaceScoped, Selected(sel, rest))
  {
    hide Matches, UpstreamObjectBelongsToTenant;
    assert ([o] + rest)[1..] == rest;
    if Matches(sel, o) {
      assert Selected(sel, [o] + rest)[1..] == Selected(sel, rest);
    }
  }

  /** A selector whose namespaces do not carry the prefix is meant as it is written. */
  lemma PlainSelector(tenantID: string, sel: Selector)
    requires forall t | t in sel && IsNamespaceField(t.field) :: !HasPrefix(t.value, Prefix(tenantID))
    ensures Normal(tenantID, sel) == sel
  {
    forall k | 0 <= k < |sel| ensures NormalTerm(tenantID, sel[k]) == sel[k] {
      assert sel[k] in sel;
    }
  }
}
