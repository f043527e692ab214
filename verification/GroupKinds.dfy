/** NewCheckGroupKindFunc: is a group and kind namespaced, and is it the tenant's own
    custom resource? Asked from the tenant's side with its own group names, and from
    upstream's side with prefixed ones. */
module GroupKinds {
  import opened Common
  import opened Names
  import opened CustomResources

  datatype GroupKind = GroupKind(group: string, kind: string)

  /** What the lister gives; it may fail. */
  type Listing = Option<seq<CRD>>

  datatype Answer =
    | Answer(namespaced: bool, customResourceGroup: bool)
    | Unregistered
    | ListFailed

  /** The native kinds and whether they are namespaced. */
  type NativeKinds = map<GroupKind, bool>

  predicate CRDBelongs(crd: CRD, tenantID: string) {
    CRDNameBelongs(crd.name, tenantID)
  }

  function OwnedBy(tenantID: string, crds: seq<CRD>): (r: seq<CRD>)
    ensures forall c :: c in r <==> c in crds && CRDBelongs(c, tenantID)
  {
    if crds == [] then []
    else (if CRDBelongs(crds[0], tenantID) then [crds[0]] else []) + OwnedBy(tenantID, crds[1..])
  }

  /** The first CRD of a group and kind. */
  function FirstOf(crds: seq<CRD>, group: string, kind: string): (r: Option<CRD>)
    ensures r.None? <==> forall c | c in crds :: !(c.group == group && c.kind == kind)
    ensures r.Some? ==> r.value in crds && r.value.group == group && r.value.kind == kind
  {
    if crds == [] then None
    else if crds[0].group == group && crds[0].kind == kind then Some(crds[0])
    else FirstOf(crds[1..], group, kind)
  }

  /** The answer, when the lister gives `crds` at first and `later` when it is asked
      again. */
  function Check(native: NativeKinds, crds: Listing, later: Listing, group: string, kind: string, tenantID: string, isTenantObject: bool): Answer {
    if GroupKind(group, kind) in native then Answer(native[GroupKind(group, kind)], false)
    else if crds.None? then ListFailed
    else
      var lookupGroup := if isTenantObject then AddTenantIDPrefix(tenantID, group) else group;
      var own := FirstOf(OwnedBy(tenantID, crds.value), lookupGroup, kind);
      if own.Some? then Answer(own.value.namespaceScoped, true)
      else if isTenantObject then Unregistered
      else if later.None? then ListFailed
      else
        var any := FirstOf(later.value, group, kind);
        if any.Some? then Answer(any.value.namespaceScoped, false) else Unregistered
  }

  // -------------------------------------------------------------------- programs

  lemma OwnedByOne(tenantID: string, c: CRD)
    ensures OwnedBy(tenantID, [c]) == if CRDBelongs(c, tenantID) then [c] else []
  {
    assert [c][1..] == [];
  }

  lemma {:induction false} OwnedByAppend(tenantID: string, crds: seq<CRD>, c: CRD)
    ensures OwnedBy(tenantID, crds + [c]) == OwnedBy(tenantID, crds) + if CRDBelongs(c, tenantID) then [c] else []
  {
    hide CRDBelongs;
    if crds == [] {
      OwnedByOne(tenantID, c);
      assert [] + [c] == [c];
    } else {
      var all := crds + [c];
      assert all[0] == crds[0] && all[1..] == crds[1..] + [c];
      OwnedByAppend(tenantID, crds[1..], c);
    }
  }

  method ListCRDsForTenant(tenantID: string, crds: Listing) returns (r: Listing)
    ensures r == if crds.None? then None else Some(OwnedBy(tenantID, crds.value))
  {
    if crds.None? { return None; }
    var list := crds.value;
    var tenantCRDs: seq<CRD> := [];
    for i := 0 to |list|
      invariant tenantCRDs == OwnedBy(tenantID, list[..i])
    {
      OwnedByAppend(tenantID, list[..i], list[i]);
      assert list[..i + 1] == list[..i] + [list[i]];
      if CRDBelongs(list[i], tenantID) {
        tenantCRDs := tenantCRDs + [list[i]];
      }
    }
    assert list[..|list|] == list;
    return Some(tenantCRDs);
  }

  method ScanFor(crds: seq<CRD>, group: string, kind: string) returns (r: Option<CRD>)
    ensures r == FirstOf(crds, group, kind)
  {
    var i := 0;
    while i < |crds|
      invariant i <= |crds|
      invariant FirstOf(crds, group, kind) == FirstOf(crds[i..], group, kind)
    {
      if crds[i].group == group && crds[i].kind == kind { return Some(crds[i]); }
      assert crds[i..][1..] == crds[i + 1..];
      i := i + 1;
    }
    return None;
  }

  predicate IsOwn(c: CRD, group: string, kind: string, tenantID: string) {
    CRDBelongs(c, tenantID) && c.group == group && c.kind == kind
  }

  /** The tenant's first CRD of the group and kind is the j-th of the list. */
  predicate FirstOwn(crds: seq<CRD>, j: nat, group: string, kind: string, tenantID: string) {
    j < |crds| && IsOwn(crds[j], group, kind, tenantID) && forall i | 0 <= i < j :: !IsOwn(crds[i], group, kind, tenantID)
  }

  /** Anyone's first CRD of the group and kind is the j-th of the list. */
  predicate FirstAny(crds: seq<CRD>, j: nat, group: string, kind: string) {
    && j < |crds| && crds[j].group == group && crds[j].kind == kind
    && forall i | 0 <= i < j :: !(crds[i].group == group && crds[i].kind == kind)
  }

  lemma FirstOfMore(c: CRD, crds: seq<CRD>, group: string, kind: string)
    ensures FirstOf([c] + crds, group, kind) == if c.group == group && c.kind == kind then Some(c) else FirstOf(crds, group, kind)
  {
    assert ([c] + crds)[1..] == crds;
  }

  lemma FirstOwnInRest(crds: seq<CRD>, j: nat, group: string, kind: string, tenantID: string)
    requires FirstOwn(crds, j, group, kind, tenantID) && j > 0
    ensures !IsOwn(crds[0], group, kind, tenantID) && FirstOwn(crds[1..], j - 1, group, kind, tenantID)
  {
    hide IsOwn;
    var rest := crds[1..];
    assert forall i | 0 <= i < j - 1 :: rest[i] == crds[i + 1];
  }

  lemma {:induction false} FirstOwnFound(crds: seq<CRD>, j: nat, group: string, kind: string, tenantID: string)
    requires FirstOwn(crds, j, group, kind, tenantID)
    ensures FirstOf(OwnedBy(tenantID, crds), group, kind) == Some(crds[j])
    decreases j
  {
    hide CRDBelongs, FirstOf, OwnedBy;
    var rest := OwnedBy(tenantID, crds[1..]);
    OwnedByHead(tenantID, crds);
    FirstOfMore(crds[0], rest, group, kind);
    if j > 0 {
      FirstOwnInRest(crds, j, group, kind, tenantID);
      FirstOwnFound(crds[1..], j - 1, group, kind, tenantID);
    }
  }

  lemma OwnedByHead(tenantID: string, crds: seq<CRD>)
    requires crds != []
    ensures OwnedBy(tenantID, crds) ==
            if CRDBelongs(crds[0], tenantID) then [crds[0]] + OwnedBy(tenantID, crds[1..]) else OwnedBy(tenantID, crds[1..])
  {
    hide CRDBelongs;
    assert [] + OwnedBy(tenantID, crds[1..]) == OwnedBy(tenantID, crds[1..]);
  }

  lemma {:induction false} FirstAnyFound(crds: seq<CRD>, j: nat, group: string, kind: string)
    requires FirstAny(crds, j, group, kind)
    ensures FirstOf(crds, group, kind) == Some(crds[j])
    decreases j
  {
    if j > 0 {
      var rest := crds[1..];
      assert !(crds[0].group == group && crds[0].kind == kind);
      assert forall i | 0 <= i < j - 1 :: rest[i] == crds[i + 1];
      FirstAnyFound(rest, j - 1, group, kind);
    }
  }

  lemma OwnAnswered(native: NativeKinds, crds: seq<CRD>, later: Listing, group: string, kind: string, tenantID: string, isTenantObject: bool)
    requires GroupKind(group, kind) !in native
    ensures var lookupGroup := if isTenantObject then tenantID + "-" + group else group;
            var r := Check(native, Some(crds), later, group, kind, tenantID, isTenantObject);
            && (forall j: nat | FirstOwn(crds, j, lookupGroup, kind, tenantID) :: r == Answer(crds[j].namespaceScoped, true))
            && ((forall c | c in crds :: !IsOwn(c, lookupGroup, kind, tenantID)) ==>
                  r == if isTenantObject then Unregistered
                       else if later.None? then ListFailed
                       else AnyAnswer(later.value, group, kind))
  {
    hide CRDBelongs;
    var lookupGroup := if isTenantObject then tenantID + "-" + group else group;
    forall j: nat | FirstOwn(crds, j, lookupGroup, kind, tenantID)
      ensures FirstOf(OwnedBy(tenantID, crds), lookupGroup, kind) == Some(crds[j])
    {
      FirstOwnFound(crds, j, lookupGroup, kind, tenantID);
    }
  }

  function AnyAnswer(crds: seq<CRD>, group: string, kind: string): (r: Answer)
    ensures forall j: nat | FirstAny(crds, j, group, kind) :: r == Answer(crds[j].namespaceScoped, false)
    ensures (forall c | c in crds :: !(c.group == group && c.kind == kind)) ==> r == Unregistered
  {
    assert forall j: nat | FirstAny(crds, j, group, kind) :: FirstOf(crds, group, kind) == Some(crds[j]) by {
      forall j: nat | FirstAny(crds, j, group, kind) ensures FirstOf(crds, group, kind) == Some(crds[j]) {
        FirstAnyFound(crds, j, group, kind);
      }
    }
    var any := FirstOf(crds, group, kind);
    if any.Some? then Answer(any.value.namespaceScoped, false) else Unregistered
  }

  /** The function that NewCheckGroupKindFunc returns. A native kind is what the table
      says. Otherwise the tenant's first CRD of the group, prefixed on the way in, and
      the kind decides. On the way out anyone's first one does, if the tenant has none;
      on the way in there is none then. */
  method CheckGroupKind(native: NativeKinds, crds: Listing, later: Listing, group: string, kind: string, tenantID: string, isTenantObject: bool)
    returns (r: Answer)
    ensures r == Check(native, crds, later, group, kind, tenantID, isTenantObject)
    ensures GroupKind(group, kind) in native ==> r == Answer(native[GroupKind(group, kind)], false)
    ensures GroupKind(group, kind) !in native && crds.None? ==> r == ListFailed
    ensures GroupKind(group, kind) !in native && crds.Some? ==>
              forall j: nat | FirstOwn(crds.value, j, if isTenantObject then tenantID + "-" + group else group, kind, tenantID) ::
                r == Answer(crds.value[j].namespaceScoped, true)
    ensures GroupKind(group, kind) !in native && crds.Some? && isTenantObject
            && (forall c | c in crds.value :: !IsOwn(c, tenantID + "-" + group, kind, tenantID)) ==>
              r == Unregistered
    ensures GroupKind(group, kind) !in native && crds.Some? && !isTenantObject
            && (forall c | c in crds.value :: !IsOwn(c, group, kind, tenantID)) ==>
              && (later.None? ==> r == ListFailed)
              && (later.Some? ==>
                    && (forall j: nat | FirstAny(later.value, j, group, kind) :: r == Answer(later.value[j].namespaceScoped, false))
                    && ((forall c | c in later.value :: !(c.group == group && c.kind == kind)) ==> r == Unregistered))
  {
    if GroupKind(group, kind) !in native && crds.Some? {
      OwnAnswered(native, crds.value, later, group, kind, tenantID, isTenantObject);
    }
    if GroupKind(group, kind) in native { return Answer(native[GroupKind(group, kind)], false); }
    var crdList := ListCRDsForTenant(tenantID, crds);
    if crdList.None? { return ListFailed; }
    var lookupGroup := group;
    if isTenantObject {
      lookupGroup := AddTenantIDPrefix(tenantID, group);
    }
    var found := ScanFor(crdList.value, lookupGroup, kind);
    if found.Some? { return Answer(found.value.namespaceScoped, true); }
    if !isTenantObject {
      if later.None? { return ListFailed; }
      found := ScanFor(later.value, group, kind);
      if found.Some? { return Answer(found.value.namespaceScoped, false); }
    }
    return Unregistered;
  }

  // ------------------------------------------------------------------ properties

  /** A CRD is called <plural>.<group>, as the API server requires. */
  predicate Coherent(crd: CRD) {
    match SplitFirst(crd.name, '.')
    case None => false
    case Some(p) => p.tail == crd.group
  }

  predicate AllCoherent(crds: Listing) {
    crds.Some? ==> forall c | c in crds.value :: Coherent(c)
  }

  /** No native group carries a dash, so none is a prefixed one. */
  predicate NoDashes(native: NativeKinds) {
    forall gk | gk in native :: '-' !in gk.group
  }

  lemma PrefixedIsNotNative(native: NativeKinds, tenantID: string, group: string, kind: string)
    requires NoDashes(native)
    ensures GroupKind(AddTenantIDPrefix(tenantID, group), kind) !in native
  {
    var g := AddTenantIDPrefix(tenantID, group);
    assert g[|tenantID|] == '-';
  }

  /** The two directions agree on a custom group and kind exactly when the lister fails
      at once, or lists a CRD of the tenant's for them, or, asked again, does not fail
      and lists no CRD for them at all. */
  lemma DirectionsAgreeIff(native: NativeKinds, crds: Listing, later: Listing, later': Listing, group: string, kind: string, tenantID: string)
    requires NoDashes(native) && GroupKind(group, kind) !in native
    ensures var upstream := AddTenantIDPrefix(tenantID, group);
            Check(native, crds, later', group, kind, tenantID, true) == Check(native, crds, later, upstream, kind, tenantID, false) <==>
            || crds.None?
            || (exists c | c in crds.value && c.group == upstream && c.kind == kind :: CRDBelongs(c, tenantID))
            || (later.Some? && forall c | c in later.value :: !(c.group == upstream && c.kind == kind))
  {
    PrefixedIsNotNative(native, tenantID, group, kind);
    if crds.Some? {
      var upstream := AddTenantIDPrefix(tenantID, group);
      var own := FirstOf(OwnedBy(tenantID, crds.value), upstream, kind);
      if own.Some? { assert CRDBelongs(own.value, tenantID); }
    }
  }

  /** Where CRDs are called after their groups, and none comes or goes between the two
      listings, the directions always agree. */
  lemma DirectionsAgree(native: NativeKinds, crds: Listing, group: string, kind: string, tenantID: string)
    requires NoDashes(native) && GroupKind(group, kind) !in native && AllCoherent(crds)
    ensures Check(native, crds, crds, group, kind, tenantID, true) ==
            Check(native, crds, crds, AddTenantIDPrefix(tenantID, group), kind, tenantID, false)
  {
    DirectionsAgreeIff(native, crds, crds, crds, group, kind, tenantID);
    PrefixAdded(tenantID, group);
    if crds.Some? {
      forall c | c in crds.value && c.group == AddTenantIDPrefix(tenantID, group)
        ensures CRDBelongs(c, tenantID)
      {
        assert Coherent(c);
      }
    }
  }

  /** From upstream's side, only groups that carry the tenant's prefix are its own. */
  lemma OwnGroupsCarryThePrefix(native: NativeKinds, crds: Listing, later: Listing, group: string, kind: string, tenantID: string)
    requires AllCoherent(crds)
    ensures var r := Check(native, crds, later, group, kind, tenantID, false);
            r.Answer? && r.customResourceGroup ==> HasPrefix(group, Prefix(tenantID))
  {
    if crds.Some? {
      var own := FirstOf(OwnedBy(tenantID, crds.value), group, kind);
      if own.Some? { assert Coherent(own.value); }
    }
  }

  // --------------------------------------------------------------- others' CRDs

  /** at lists, in increasing order, where the tenant's CRDs stand. */
  ghost predicate OwnPositions(at: seq<nat>, crds: seq<CRD>, tenantID: string) {
    && (forall j, k | 0 <= j < k < |at| :: at[j] < at[k])
    && (forall i: nat :: i in at <==> i < |crds| && CRDBelongs(crds[i], tenantID))
  }

  /** The largest position is the last. */
  lemma LargestIsLast(at: seq<nat>, n: nat)
    requires forall j, k | 0 <= j < k < |at| :: at[j] < at[k]
    requires n in at && forall i | i in at :: i <= n
    ensures at[|at| - 1] == n && at == at[..|at| - 1] + [n]
    ensures n !in at[..|at| - 1]
  {
    assert at[|at| - 1] in at;
    var k :| 0 <= k < |at| && at[k] == n;
  }

  lemma LastPosition(at: seq<nat>, crds: seq<CRD>, tenantID: string)
    requires crds != [] && OwnPositions(at, crds, tenantID)
    ensures var rest := crds[..|crds| - 1];
            if CRDBelongs(crds[|rest|], tenantID)
            then at != [] && at[|at| - 1] == |rest| && OwnPositions(at[..|at| - 1], rest, tenantID)
            else OwnPositions(at, rest, tenantID)
  {
    hide CRDBelongs;
    var n := |crds| - 1;
    var rest := crds[..n];
    if CRDBelongs(crds[n], tenantID) {
      LargestIsLast(at, n);
      var front := at[..|at| - 1];
      forall i: nat ensures i in front <==> i < n && CRDBelongs(rest[i], tenantID) {
        assert i in at <==> i in front || i == n;
        assert i < n ==> rest[i] == crds[i];
      }
    } else {
      forall i: nat ensures i in at <==> i < n && CRDBelongs(rest[i], tenantID) {
        assert i in at <==> i < |crds| && CRDBelongs(crds[i], tenantID);
      }
    }
  }

  lemma {:induction false} OwnedAt(at: seq<nat>, crds: seq<CRD>, tenantID: string)
    requires OwnPositions(at, crds, tenantID)
    ensures |OwnedBy(tenantID, crds)| == |at|
    ensures forall k | 0 <= k < |at| :: at[k] < |crds| && OwnedBy(tenantID, crds)[k] == crds[at[k]]
    decreases |crds|
  {
    hide CRDBelongs, OwnPositions, OwnedBy;
    if crds == [] {
      NothingOwned(at, tenantID);
    } else {
      var rest, last := crds[..|crds| - 1], crds[|crds| - 1];
      assert crds == rest + [last];
      LastPosition(at, crds, tenantID);
      OwnedByAppend(tenantID, rest, last);
      OwnedAt(if CRDBelongs(last, tenantID) then at[..|at| - 1] else at, rest, tenantID);
    }
  }

  lemma NothingOwned(at: seq<nat>, tenantID: string)
    requires OwnPositions(at, [], tenantID)
    ensures OwnedBy(tenantID, []) == [] && at == []
  {
    SomeMember(at);
    assert forall i: nat :: i !in at;
  }

  lemma SomeMember(s: seq<nat>)
    ensures s != [] ==> exists i :: i in s
  {
    if s != [] { assert s[0] in s; }
  }

  /** What a tenant is told depends on its own CRDs and their order, and nothing else:
      two lists that have these in common, wherever they stand in each, and whatever
      others' CRDs there are in between, give the same answer. */
  lemma OthersDoNotMatter(native: NativeKinds, a: seq<CRD>, b: seq<CRD>, later: Listing, later': Listing, at: seq<nat>, bt: seq<nat>,
                          group: string, kind: string, tenantID: string)
    requires OwnPositions(at, a, tenantID) && OwnPositions(bt, b, tenantID) && |at| == |bt|
    requires forall k | 0 <= k < |at| :: at[k] < |a| && bt[k] < |b| && a[at[k]] == b[bt[k]]
    ensures Check(native, Some(a), later, group, kind, tenantID, true) == Check(native, Some(b), later', group, kind, tenantID, true)
  {
    hide OwnPositions, CRDBelongs;
    OwnedAt(at, a, tenantID);
    OwnedAt(bt, b, tenantID);
    assert OwnedBy(tenantID, a) == OwnedBy(tenantID, b);
  }

  lemma {:induction false} OwnedByConcat(tenantID: string, x: seq<CRD>, y: seq<CRD>)
    ensures OwnedBy(tenantID, x + y) == OwnedBy(tenantID, x) + OwnedBy(tenantID, y)
  {
    if x == [] {
      assert x + y == y;
    } else {
      assert (x + y)[1..] == x[1..] + y;
      OwnedByConcat(tenantID, x[1..], y);
    }
  }

  /** In particular a whole run of others' CRDs can come or go, anywhere in the list. */
  lemma OthersInserted(native: NativeKinds, x: seq<CRD>, others: seq<CRD>, y: seq<CRD>, later: Listing, later': Listing,
                       group: string, kind: string, tenantID: string)
    requires forall c | c in others :: !CRDBelongs(c, tenantID)
    ensures Check(native, Some(x + others + y), later, group, kind, tenantID, true) ==
            Check(native, Some(x + y), later', group, kind, tenantID, true)
  {
    hide OwnedBy;
    OwnedByConcat(tenantID, x + others, y);
    OwnedByConcat(tenantID, x, others);
    OwnedByConcat(tenantID, x, y);
    NoneOwned(tenantID, others);
    assert OwnedBy(tenantID, x) + [] == OwnedBy(tenantID, x);
  }

  /** And a run of them can change places with whatever comes after. */
  lemma OthersReordered(native: NativeKinds, x: seq<CRD>, others: seq<CRD>, y: seq<CRD>, z: seq<CRD>, later: Listing, later': Listing,
                        group: string, kind: string, tenantID: string)
    requires forall c | c in others :: !CRDBelongs(c, tenantID)
    ensures Check(native, Some(x + others + y + z), later, group, kind, tenantID, true) ==
            Check(native, Some(x + y + others + z), later', group, kind, tenantID, true)
  {
    hide Check;
    OthersInserted(native, x, others, y + z, later, later, group, kind, tenantID);
    OthersInserted(native, x + y, others, z, later', later, group, kind, tenantID);
    assert x + others + (y + z) == x + others + y + z;
    assert x + (y + z) == x + y + z;
  }

  lemma {:induction false} NoneOwned(tenantID: string, others: seq<CRD>)
    requires forall c | c in others :: !CRDBelongs(c, tenantID)
    ensures OwnedBy(tenantID, others) == []
  {
    if others != [] { NoneOwned(tenantID, others[1..]); }
  }

  /** A platform CRD under a group that reads as the tenant's: the tenant is told
      that there is no such kind, upstream that there is. */
  lemma IncoherentNamesDisagree(native: NativeKinds)
    requires NoDashes(native) && GroupKind("g", "K") !in native
    ensures var crds := Some([CRD("ks.g", "111111-g", "ks", "K", true, ["v1"])]);
            Check(native, crds, crds, "g", "K", "111111", true).Unregistered?
            && Check(native, crds, crds, "111111-g", "K", "111111", false) == Answer(true, false)
  {
    var c := CRD("ks.g", "111111-g", "ks", "K", true, ["v1"]);
    SplitJoined("ks", '.', "g");
    assert "ks" + ['.'] + "g" == "ks.g";
    PrefixedIsNotNative(native, "111111", "g", "K");
    assert AddTenantIDPrefix("111111", "g") == "111111-g";
    assert !CRDBelongs(c, "111111");
  }
}
