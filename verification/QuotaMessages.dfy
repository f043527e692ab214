/** ClusterResourceQuotaSpec: a message with a required submessage, an optional one
    and a repeated string, as a value and as the Go struct of quota/v1alpha1. */
module QuotaMessages {
  import opened Common
  import opened Varint
  import opened WireFields
  import opened Message
  import opened SortedKeys
  import opened TenantMessages
  import opened Generated
  import opened TenantCodec

  /** Foreign messages, as in TenantMessages. */
  type ResourceQuotaSpec(!new, ==)
  type LabelSelector(!new, ==)

  datatype QuotaCodecs = QuotaCodecs(resourceQuotaSpec: Codec<ResourceQuotaSpec>, labelSelector: Codec<LabelSelector>)

  ghost predicate BothLawful(c: QuotaCodecs) {
    Lawful(c.resourceQuotaSpec) && Lawful(c.labelSelector)
  }

  datatype ClusterQuota = ClusterQuota(
    resourceQuotaSpec: ResourceQuotaSpec,
    namespaceSelector: Option<LabelSelector>,
    namespaces: seq<Str>)

  function ZeroClusterQuota(c: QuotaCodecs): ClusterQuota {
    ClusterQuota(c.resourceQuotaSpec.zero, None, [])
  }

  function MergeResourceQuotaSpec(c: QuotaCodecs, m: ClusterQuota, p: seq<byte>): Result<ClusterQuota> {
    var v :- c.resourceQuotaSpec.merge(m.resourceQuotaSpec, p);
    Ok(m.(resourceQuotaSpec := v))
  }

  function MergeSelector(c: QuotaCodecs, m: ClusterQuota, p: seq<byte>): Result<ClusterQuota> {
    var v :- c.labelSelector.merge(if m.namespaceSelector.Some? then m.namespaceSelector.value else c.labelSelector.zero, p);
    Ok(m.(namespaceSelector := Some(v)))
  }

  function AppendNamespace(m: ClusterQuota, p: seq<byte>): Result<ClusterQuota> {
    Ok(m.(namespaces := m.namespaces + [p]))
  }

  function ClusterQuotaSchema(c: QuotaCodecs): Schema<ClusterQuota> {
    (number: int) =>
      if number == 1 then Payload((m: ClusterQuota, p: seq<byte>) => MergeResourceQuotaSpec(c, m, p))
      else if number == 2 then Payload((m: ClusterQuota, p: seq<byte>) => MergeSelector(c, m, p))
      else if number == 3 then Payload(AppendNamespace)
      else Unknown
  }

  function EncodeNamespaces(names: seq<Str>): seq<byte> {
    if names == [] then [] else DelimitedBytes(3, names[0]) + EncodeNamespaces(names[1..])
  }

  function EncodeClusterQuota(c: QuotaCodecs, m: ClusterQuota): seq<byte> {
    DelimitedBytes(1, c.resourceQuotaSpec.encode(m.resourceQuotaSpec)) +
    (OptionalBytes(2, Encoded(m.namespaceSelector, c.labelSelector.encode)) + EncodeNamespaces(m.namespaces))
  }

  // ------------------------------------------------------------------ properties

  lemma ClusterQuotaIsStable(c: QuotaCodecs)
    ensures Stable(ClusterQuotaSchema(c)) && Local(ClusterQuotaSchema(c))
  {
    PayloadIsStable(ClusterQuotaSchema(c)(1), (m: ClusterQuota, p: seq<byte>) => MergeResourceQuotaSpec(c, m, p));
    PayloadIsStable(ClusterQuotaSchema(c)(2), (m: ClusterQuota, p: seq<byte>) => MergeSelector(c, m, p));
    PayloadIsStable(ClusterQuotaSchema(c)(3), AppendNamespace);
  }

  /** The names are appended in the order in which they stand on the wire. */
  lemma {:induction false} NamespacesRead(c: QuotaCodecs, m: ClusterQuota, d: seq<byte>, i: nat, names: seq<Str>)
    requires |d| <= MAX_INT && i + |EncodeNamespaces(names)| == |d| && At(d, i, EncodeNamespaces(names))
    ensures Decode(ClusterQuotaSchema(c), m, d, i) == Ok(m.(namespaces := m.namespaces + names))
    decreases |names|
  {
    hide Decode, DelimitedBytes;
    if names == [] {
      AppendNothing'(m.namespaces);
      DecodeEnd(ClusterQuotaSchema(c), m, d);
    } else {
      var field := DelimitedBytes(3, names[0]);
      AtConcat(d, i, field, EncodeNamespaces(names[1..]));
      DelimitedLength(3, names[0]);
      var next := m.(namespaces := m.namespaces + [names[0]]);
      PayloadField(ClusterQuotaSchema(c), m, d, i, 3, names[0], AppendNamespace, next);
      NamespacesRead(c, next, d, i + |field|, names[1..]);
      assert m.namespaces + [names[0]] + names[1..] == m.namespaces + names;
    }
  }

  lemma AppendNothing'(s: seq<Str>)
    ensures s + [] == s
  {
  }

  lemma ClusterQuotaRoundTrip(c: QuotaCodecs, m: ClusterQuota)
    requires BothLawful(c) && |EncodeClusterQuota(c, m)| <= MAX_INT
    ensures Decode(ClusterQuotaSchema(c), ZeroClusterQuota(c), EncodeClusterQuota(c, m)) == Ok(m)
  {
    hide Decode, DelimitedBytes, OptionalBytes, EncodeNamespaces;
    var s, d, m0 := ClusterQuotaSchema(c), EncodeClusterQuota(c, m), ZeroClusterQuota(c);
    var p := c.resourceQuotaSpec.encode(m.resourceQuotaSpec);
    var x1, x2, x3 := DelimitedBytes(1, p), OptionalBytes(2, Encoded(m.namespaceSelector, c.labelSelector.encode)), EncodeNamespaces(m.namespaces);
    Whole(d);
    AtConcat(d, 0, x1, x2 + x3);
    AtConcat(d, |x1|, x2, x3);
    DelimitedLength(1, p);
    var m1 := m0.(resourceQuotaSpec := m.resourceQuotaSpec);
    var m2 := m1.(namespaceSelector := m.namespaceSelector);
    PayloadField(s, m0, d, 0, 1, p, (m: ClusterQuota, p: seq<byte>) => MergeResourceQuotaSpec(c, m, p), m1);
    OptionalField(s, m1, d, |x1|, 2, m.namespaceSelector, c.labelSelector.encode,
                  (m: ClusterQuota, p: seq<byte>) => MergeSelector(c, m, p), m2);
    NamespacesRead(c, m2, d, |x1| + |x2|, m.namespaces);
    assert [] + m.namespaces == m.namespaces;
  }

  // -------------------------------------------------------------------- programs

  lemma {:induction false} NamespacesSplit(names: seq<Str>, k: nat)
    requires k < |names|
    ensures EncodeNamespaces(names[k..]) == DelimitedBytes(3, names[k]) + EncodeNamespaces(names[k + 1..])
    ensures |EncodeNamespaces(names[k..])| <= |EncodeNamespaces(names)|
    ensures EncodeNamespaces(names[|names|..]) == []
  {
    hide DelimitedBytes;
    assert names[k..][1..] == names[k + 1..];
    if k > 0 {
      NamespacesSplit(names, k - 1);
    } else {
      assert names[0..] == names;
    }
  }

  class ClusterResourceQuotaSpec {
    var resourceQuotaSpec: ResourceQuotaSpec
    var namespaceSelector: Option<LabelSelector>
    var namespaces: seq<Str>

    function Value(): ClusterQuota
      reads this
    {
      ClusterQuota(resourceQuotaSpec, namespaceSelector, namespaces)
    }

    constructor (c: QuotaCodecs)
      ensures Value() == ZeroClusterQuota(c)
    {
      resourceQuotaSpec, namespaceSelector, namespaces := c.resourceQuotaSpec.zero, None, [];
    }

    constructor Of(m: ClusterQuota)
      ensures Value() == m
    {
      resourceQuotaSpec, namespaceSelector, namespaces := m.resourceQuotaSpec, m.namespaceSelector, m.namespaces;
    }

    method Size(c: QuotaCodecs) returns (n: nat)
      ensures n == |EncodeClusterQuota(c, Value())|
    {
      hide DelimitedBytes, Sov;
      var l := |c.resourceQuotaSpec.encode(resourceQuotaSpec)|;
      SizeOfDelimited(1, c.resourceQuotaSpec.encode(resourceQuotaSpec));
      n := 1 + l + Sov(l);
      if namespaceSelector.Some? {
        l := |c.labelSelector.encode(namespaceSelector.value)|;
        SizeOfDelimited(2, c.labelSelector.encode(namespaceSelector.value));
        n := n + 1 + l + Sov(l);
      }
      ghost var total := n + |EncodeNamespaces(namespaces)|;
      assert namespaces[0..] == namespaces;
      for k := 0 to |namespaces|
        invariant n + |EncodeNamespaces(namespaces[k..])| == total
      {
        NamespacesSplit(namespaces, k);
        SizeOfDelimited(3, namespaces[k]);
        l := |namespaces[k]|;
        n := n + 1 + l + Sov(l);
      }
    }

    /** The names are written from the last to the first. */
    method PrependNamespaces(dAtA: array<byte>, end: nat, ghost was: seq<byte>) returns (i: nat)
      requires |EncodeNamespaces(namespaces)| <= end <= |was| == dAtA.Length <= MAX_INT && dAtA[..] == was
      modifies dAtA
      ensures i + |EncodeNamespaces(namespaces)| == end
      ensures dAtA[..] == Splice(was, i, EncodeNamespaces(namespaces))
    {
      hide DelimitedBytes, EncodeNamespaces, Splice;
      NothingWritten(was, end);
      NoNamespaces(namespaces);
      i := end;
      var iNdEx: nat := |namespaces|;
      while iNdEx > 0
        invariant iNdEx <= |namespaces|
        invariant i + |EncodeNamespaces(namespaces[iNdEx..])| == end
        invariant dAtA[..] == Splice(was, i, EncodeNamespaces(namespaces[iNdEx..]))
      {
        iNdEx := iNdEx - 1;
        NamespacesSplit(namespaces, iNdEx);
        ghost var out := EncodeNamespaces(namespaces[iNdEx + 1..]);
        DelimitedLength(3, namespaces[iNdEx]);
        i := PrependBytes(dAtA, i, namespaces[iNdEx], was, out);
        i := PrependHeader(dAtA, i, 0x1a, |namespaces[iNdEx]|, was, namespaces[iNdEx], out);
      }
      assert namespaces[0..] == namespaces;
    }

    method MarshalToSizedBuffer(c: QuotaCodecs, dAtA: array<byte>, end: nat) returns (n: nat)
      requires |EncodeClusterQuota(c, Value())| <= end <= dAtA.Length <= MAX_INT
      modifies dAtA
      ensures n == |EncodeClusterQuota(c, Value())|
      ensures dAtA[..] == Splice(old(dAtA[..]), end - n, EncodeClusterQuota(c, Value()))
    {
      hide DelimitedBytes, EncodeNamespaces, Splice;
      ghost var was := dAtA[..];
      ghost var x2, x3 := OptionalBytes(2, Encoded(namespaceSelector, c.labelSelector.encode)), EncodeNamespaces(namespaces);
      ghost var p := c.resourceQuotaSpec.encode(resourceQuotaSpec);
      DelimitedLength(1, p);
      var i := PrependNamespaces(dAtA, end, was);
      var size: nat;
      AppendNothing(x3);
      if namespaceSelector.Some? {
        ghost var q := c.labelSelector.encode(namespaceSelector.value);
        DelimitedLength(2, q);
        size := PrependForeign(c.labelSelector, namespaceSelector.value, dAtA, i, was, x3);
        i := PrependHeader(dAtA, i - size, 0x12, size, was, q, x3);
      }
      size := PrependForeign(c.resourceQuotaSpec, resourceQuotaSpec, dAtA, i, was, x2 + x3);
      i := PrependHeader(dAtA, i - size, 0xa, size, was, p, x2 + x3);
      AppendNothing(EncodeClusterQuota(c, Value()));
      return end - i;
    }

    method Marshal(c: QuotaCodecs) returns (dAtA: seq<byte>)
      requires |EncodeClusterQuota(c, Value())| <= MAX_INT
      ensures dAtA == EncodeClusterQuota(c, Value())
    {
      hide EncodeClusterQuota;
      var size := Size(c);
      var buffer := new byte[size];
      var n := MarshalToSizedBuffer(c, buffer, size);
      dAtA := buffer[..n];
    }

    method Unmarshal(c: QuotaCodecs, dAtA: seq<byte>) returns (err: Option<Error>)
      requires |dAtA| <= MAX_INT
      modifies this
      ensures Agrees(Decode(ClusterQuotaSchema(c), old(Value()), dAtA), Value(), err)
    {
      hide Decode, ReadVarint, ReadTag, ReadExtent, SkipFrom;
      var l, iNdEx := |dAtA|, 0;
      while iNdEx < l
        invariant iNdEx <= l
        invariant Decode(ClusterQuotaSchema(c), old(Value()), dAtA) == Decode(ClusterQuotaSchema(c), Value(), dAtA, iNdEx)
        decreases l - iNdEx
      {
        ghost var s, m := ClusterQuotaSchema(c), Value();
        DecodeTurn(s, m, dAtA, iNdEx);
        var preIndex := iNdEx;
        var fieldNum, wireType, postIndex;
        fieldNum, wireType, iNdEx, err := DecodeTag(dAtA, iNdEx);
        if err.Some? { return; }
        match fieldNum {
          case 1 =>
            PayloadTurn(s, m, dAtA, preIndex, (m: ClusterQuota, p: seq<byte>) => MergeResourceQuotaSpec(c, m, p));
            if wireType != 2 { return Some(WrongWireType); }
            iNdEx, postIndex, err := DecodeLength(dAtA, iNdEx);
            if err.Some? { return; }
            match c.resourceQuotaSpec.merge(resourceQuotaSpec, dAtA[iNdEx..postIndex]) {
              case Ok(v) => resourceQuotaSpec := v;
              case Err(e) => return Some(e);
            }
            iNdEx := postIndex;
          case 2 =>
            PayloadTurn(s, m, dAtA, preIndex, (m: ClusterQuota, p: seq<byte>) => MergeSelector(c, m, p));
            if wireType != 2 { return Some(WrongWireType); }
            iNdEx, postIndex, err := DecodeLength(dAtA, iNdEx);
            if err.Some? { return; }
            if namespaceSelector.None? {
              namespaceSelector := Some(c.labelSelector.zero);
            }
            match c.labelSelector.merge(namespaceSelector.value, dAtA[iNdEx..postIndex]) {
              case Ok(v) => namespaceSelector := Some(v);
              case Err(e) => return Some(e);
            }
            iNdEx := postIndex;
          case 3 =>
            PayloadTurn(s, m, dAtA, preIndex, AppendNamespace);
            if wireType != 2 { return Some(WrongWireType); }
            iNdEx, postIndex, err := DecodeLength(dAtA, iNdEx);
            if err.Some? { return; }
            namespaces := namespaces + [dAtA[iNdEx..postIndex]];
            iNdEx := postIndex;
          case _ =>
            iNdEx, err := SkipUnknown(dAtA, preIndex, l);
            if err.Some? { return; }
        }
      }
      DecodeEnd(ClusterQuotaSchema(c), Value(), dAtA);
      if iNdEx > l { return Some(UnexpectedEOF); }
      return None;
    }
  }

  lemma NoNamespaces(names: seq<Str>)
    ensures EncodeNamespaces(names[|names|..]) == []
  {
  }
}
