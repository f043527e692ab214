/** ClusterResourceQuota, as a value, and ClusterResourceQuotaList, a message that
    repeats it (quota/v1alpha1). */
module QuotaLists {
  import opened Common
  import opened Varint
  import opened WireFields
  import opened Message
  import opened TenantMessages
  import opened QuotaMessages
  import opened Generated
  import opened TenantCodec

  /** Foreign messages, as in TenantMessages. */
  type ListMeta(!new, ==)
  type ResourceQuotaStatus(!new, ==)

  datatype ObjectCodecs = ObjectCodecs(
    listMeta: Codec<ListMeta>,
    objectMeta: Codec<ObjectMeta>,
    resourceQuotaStatus: Codec<ResourceQuotaStatus>,
    spec: QuotaCodecs)

  ghost predicate ObjectsLawful(c: ObjectCodecs) {
    Lawful(c.listMeta) && Lawful(c.objectMeta) && Lawful(c.resourceQuotaStatus) && BothLawful(c.spec)
  }

  datatype QuotaStatus = QuotaStatus(resourceQuotaStatus: ResourceQuotaStatus)

  datatype QuotaObject = QuotaObject(objectMeta: ObjectMeta, spec: ClusterQuota, status: QuotaStatus)

  datatype QuotaList = QuotaList(listMeta: ListMeta, items: seq<QuotaObject>)

  function ZeroStatus(c: ObjectCodecs): QuotaStatus {
    QuotaStatus(c.resourceQuotaStatus.zero)
  }

  function ZeroObject(c: ObjectCodecs): QuotaObject {
    QuotaObject(c.objectMeta.zero, ZeroClusterQuota(c.spec), ZeroStatus(c))
  }

  function ZeroList(c: ObjectCodecs): QuotaList {
    QuotaList(c.listMeta.zero, [])
  }

  // -------------------------------------------------------------------- decoding

  function MergeQuotaStatus(c: ObjectCodecs, m: QuotaStatus, p: seq<byte>): Result<QuotaStatus> {
    var v :- c.resourceQuotaStatus.merge(m.resourceQuotaStatus, p);
    Ok(m.(resourceQuotaStatus := v))
  }

  function QuotaStatusSchema(c: ObjectCodecs): Schema<QuotaStatus> {
    (number: int) =>
      if number == 1 then Payload((m: QuotaStatus, p: seq<byte>) => MergeQuotaStatus(c, m, p)) else Unknown
  }

  function MergeObjectMeta(c: ObjectCodecs, m: QuotaObject, p: seq<byte>): Result<QuotaObject> {
    var v :- c.objectMeta.merge(m.objectMeta, p);
    Ok(m.(objectMeta := v))
  }

  function MergeObjectSpec(c: ObjectCodecs, m: QuotaObject, p: seq<byte>): Result<QuotaObject> {
    var v :- Decode(ClusterQuotaSchema(c.spec), m.spec, p);
    Ok(m.(spec := v))
  }

  function MergeObjectStatus(c: ObjectCodecs, m: QuotaObject, p: seq<byte>): Result<QuotaObject> {
    var v :- Decode(QuotaStatusSchema(c), m.status, p);
    Ok(m.(status := v))
  }

  function ObjectSchema(c: ObjectCodecs): Schema<QuotaObject> {
    (number: int) =>
      if number == 1 then Payload((m: QuotaObject, p: seq<byte>) => MergeObjectMeta(c, m, p))
      else if number == 2 then Payload((m: QuotaObject, p: seq<byte>) => MergeObjectSpec(c, m, p))
      else if number == 3 then Payload((m: QuotaObject, p: seq<byte>) => MergeObjectStatus(c, m, p))
      else Unknown
  }

  function MergeListMeta(c: ObjectCodecs, m: QuotaList, p: seq<byte>): Result<QuotaList> {
    var v :- c.listMeta.merge(m.listMeta, p);
    Ok(m.(listMeta := v))
  }

  /** Each occurrence is one more item, starting from the zero value. */
  function AppendItem(c: ObjectCodecs, m: QuotaList, p: seq<byte>): Result<QuotaList> {
    var v :- Decode(ObjectSchema(c), ZeroObject(c), p);
    Ok(m.(items := m.items + [v]))
  }

  function ListSchema(c: ObjectCodecs): Schema<QuotaList> {
    (number: int) =>
      if number == 1 then Payload((m: QuotaList, p: seq<byte>) => MergeListMeta(c, m, p))
      else if number == 2 then Payload((m: QuotaList, p: seq<byte>) => AppendItem(c, m, p))
      else Unknown
  }

  // -------------------------------------------------------------------- encoding

  function EncodeQuotaStatus(c: ObjectCodecs, m: QuotaStatus): seq<byte> {
    DelimitedBytes(1, c.resourceQuotaStatus.encode(m.resourceQuotaStatus))
  }

  function EncodeObject(c: ObjectCodecs, m: QuotaObject): seq<byte> {
    DelimitedBytes(1, c.objectMeta.encode(m.objectMeta)) +
    (DelimitedBytes(2, EncodeClusterQuota(c.spec, m.spec)) + DelimitedBytes(3, EncodeQuotaStatus(c, m.status)))
  }

  function EncodeItems(c: ObjectCodecs, items: seq<QuotaObject>): seq<byte> {
    if items == [] then [] else DelimitedBytes(2, EncodeObject(c, items[0])) + EncodeItems(c, items[1..])
  }

  function EncodeList(c: ObjectCodecs, m: QuotaList): seq<byte> {
    DelimitedBytes(1, c.listMeta.encode(m.listMeta)) + EncodeItems(c, m.items)
  }

  // ------------------------------------------------------------------ properties

  lemma ListIsStable(c: ObjectCodecs)
    ensures Stable(ListSchema(c)) && Local(ListSchema(c))
  {
    PayloadIsStable(ListSchema(c)(1), (m: QuotaList, p: seq<byte>) => MergeListMeta(c, m, p));
    PayloadIsStable(ListSchema(c)(2), (m: QuotaList, p: seq<byte>) => AppendItem(c, m, p));
  }

  lemma QuotaStatusRoundTrip(c: ObjectCodecs, m: QuotaStatus)
    requires ObjectsLawful(c) && |EncodeQuotaStatus(c, m)| <= MAX_INT
    ensures Decode(QuotaStatusSchema(c), ZeroStatus(c), EncodeQuotaStatus(c, m)) == Ok(m)
  {
    hide Decode, DelimitedBytes;
    var s, d, p := QuotaStatusSchema(c), EncodeQuotaStatus(c, m), c.resourceQuotaStatus.encode(m.resourceQuotaStatus);
    Whole(d);
    DelimitedLength(1, p);
    PayloadField(s, ZeroStatus(c), d, 0, 1, p, (m: QuotaStatus, p: seq<byte>) => MergeQuotaStatus(c, m, p), m);
    DecodeEnd(s, m, d);
  }

  lemma QuotaObjectRoundTrip(c: ObjectCodecs, m: QuotaObject)
    requires ObjectsLawful(c) && |EncodeObject(c, m)| <= MAX_INT
    ensures Decode(ObjectSchema(c), ZeroObject(c), EncodeObject(c, m)) == Ok(m)
  {
    hide Decode, DelimitedBytes, EncodeClusterQuota, EncodeQuotaStatus;
    var s, d, m0 := ObjectSchema(c), EncodeObject(c, m), ZeroObject(c);
    var p1, p2, p3 := c.objectMeta.encode(m.objectMeta), EncodeClusterQuota(c.spec, m.spec), EncodeQuotaStatus(c, m.status);
    var x1, x2, x3 := DelimitedBytes(1, p1), DelimitedBytes(2, p2), DelimitedBytes(3, p3);
    Whole(d);
    AtConcat(d, 0, x1, x2 + x3);
    AtConcat(d, |x1|, x2, x3);
    DelimitedLength(1, p1);
    DelimitedLength(2, p2);
    DelimitedLength(3, p3);
    ClusterQuotaRoundTrip(c.spec, m.spec);
    QuotaStatusRoundTrip(c, m.status);
    var m1 := m0.(objectMeta := m.objectMeta);
    var m2 := m1.(spec := m.spec);
    PayloadField(s, m0, d, 0, 1, p1, (m: QuotaObject, p: seq<byte>) => MergeObjectMeta(c, m, p), m1);
    PayloadField(s, m1, d, |x1|, 2, p2, (m: QuotaObject, p: seq<byte>) => MergeObjectSpec(c, m, p), m2);
    PayloadField(s, m2, d, |x1| + |x2|, 3, p3, (m: QuotaObject, p: seq<byte>) => MergeObjectStatus(c, m, p), m);
    DecodeEnd(s, m, d);
  }

  lemma {:induction false} ItemsRead(c: ObjectCodecs, m: QuotaList, d: seq<byte>, i: nat, items: seq<QuotaObject>)
    requires ObjectsLawful(c) && |d| <= MAX_INT
    requires i + |EncodeItems(c, items)| == |d| && At(d, i, EncodeItems(c, items))
    ensures Decode(ListSchema(c), m, d, i) == Ok(m.(items := m.items + items))
    decreases |items|
  {
    hide Decode, DelimitedBytes, EncodeObject, ObjectSchema, ZeroObject;
    if items == [] {
      assert m.items + items == m.items;
      DecodeEnd(ListSchema(c), m, d);
    } else {
      var p := EncodeObject(c, items[0]);
      var field := DelimitedBytes(2, p);
      AtConcat(d, i, field, EncodeItems(c, items[1..]));
      DelimitedLength(2, p);
      QuotaObjectRoundTrip(c, items[0]);
      var next := m.(items := m.items + [items[0]]);
      PayloadField(ListSchema(c), m, d, i, 2, p, (m: QuotaList, p: seq<byte>) => AppendItem(c, m, p), next);
      ItemsRead(c, next, d, i + |field|, items[1..]);
      assert m.items + [items[0]] + items[1..] == m.items + items;
    }
  }

  /** A list survives the wire, its items in order. */
  lemma QuotaListRoundTrip(c: ObjectCodecs, m: QuotaList)
    requires ObjectsLawful(c) && |EncodeList(c, m)| <= MAX_INT
    ensures Decode(ListSchema(c), ZeroList(c), EncodeList(c, m)) == Ok(m)
  {
    hide Decode, DelimitedBytes, EncodeItems, ObjectSchema, ZeroObject;
    var s, d, m0, p := ListSchema(c), EncodeList(c, m), ZeroList(c), c.listMeta.encode(m.listMeta);
    var x1, x2 := DelimitedBytes(1, p), EncodeItems(c, m.items);
    Whole(d);
    AtConcat(d, 0, x1, x2);
    DelimitedLength(1, p);
    var m1 := m0.(listMeta := m.listMeta);
    PayloadField(s, m0, d, 0, 1, p, (m: QuotaList, p: seq<byte>) => MergeListMeta(c, m, p), m1);
    ItemsRead(c, m1, d, |x1|, m.items);
    assert [] + m.items == m.items;
  }

  /** Lists concatenate: the items of both, and the metadata of the second merged
      into that of the first. */
  lemma QuotaListsConcatenate(c: ObjectCodecs, m: QuotaList, m': QuotaList)
    requires ObjectsLawful(c) && |EncodeList(c, m)| <= MAX_INT && |EncodeList(c, m')| <= MAX_INT
    requires c.listMeta.merge(m.listMeta, c.listMeta.encode(m'.listMeta)).Ok?
    ensures Decode(ListSchema(c), ZeroList(c), EncodeList(c, m) + EncodeList(c, m')) ==
            Ok(QuotaList(c.listMeta.merge(m.listMeta, c.listMeta.encode(m'.listMeta)).value, m.items + m'.items))
  {
    hide Decode, DelimitedBytes, EncodeItems, ObjectSchema, ZeroObject, Stable, Local;
    ListIsStable(c);
    QuotaListRoundTrip(c, m);
    ConcatenationMerges(ListSchema(c), ZeroList(c), EncodeList(c, m), EncodeList(c, m'));
    var s, d, p := ListSchema(c), EncodeList(c, m'), c.listMeta.encode(m'.listMeta);
    var x1, x2 := DelimitedBytes(1, p), EncodeItems(c, m'.items);
    Whole(d);
    AtConcat(d, 0, x1, x2);
    DelimitedLength(1, p);
    var m1 := m.(listMeta := c.listMeta.merge(m.listMeta, p).value);
    PayloadField(s, m, d, 0, 1, p, (m: QuotaList, p: seq<byte>) => MergeListMeta(c, m, p), m1);
    ItemsRead(c, m1, d, |x1|, m'.items);
  }

  // -------------------------------------------------------------------- programs

  lemma {:induction false} ItemsSplit(c: ObjectCodecs, items: seq<QuotaObject>, k: nat)
    requires k < |items|
    ensures EncodeItems(c, items[k..]) == DelimitedBytes(2, EncodeObject(c, items[k])) + EncodeItems(c, items[k + 1..])
    ensures |EncodeItems(c, items[k..])| <= |EncodeItems(c, items)|
    ensures EncodeItems(c, items[|items|..]) == []
  {
    hide DelimitedBytes, EncodeObject;
    assert items[k..][1..] == items[k + 1..];
    if k > 0 {
      ItemsSplit(c, items, k - 1);
    } else {
      assert items[0..] == items;
    }
  }

  lemma NoItems(c: ObjectCodecs, items: seq<QuotaObject>)
    ensures EncodeItems(c, items[|items|..]) == []
  {
  }

  class ClusterResourceQuotaStatus {
    var resourceQuotaStatus: ResourceQuotaStatus

    function Value(): QuotaStatus
      reads this
    {
      QuotaStatus(resourceQuotaStatus)
    }

    constructor (c: ObjectCodecs)
      ensures Value() == ZeroStatus(c)
    {
      resourceQuotaStatus := c.resourceQuotaStatus.zero;
    }

    constructor Of(m: QuotaStatus)
      ensures Value() == m
    {
      resourceQuotaStatus := m.resourceQuotaStatus;
    }

    method Size(c: ObjectCodecs) returns (n: nat)
      ensures n == |EncodeQuotaStatus(c, Value())|
    {
      hide DelimitedBytes, Sov;
      var l := |c.resourceQuotaStatus.encode(resourceQuotaStatus)|;
      SizeOfDelimited(1, c.resourceQuotaStatus.encode(resourceQuotaStatus));
      n := 1 + l + Sov(l);
    }

    method MarshalToSizedBuffer(c: ObjectCodecs, dAtA: array<byte>, end: nat) returns (n: nat)
      requires |EncodeQuotaStatus(c, Value())| <= end <= dAtA.Length <= MAX_INT
      modifies dAtA
      ensures n == |EncodeQuotaStatus(c, Value())|
      ensures dAtA[..] == Splice(old(dAtA[..]), end - n, EncodeQuotaStatus(c, Value()))
    {
      hide DelimitedBytes, Splice;
      ghost var was := dAtA[..];
      ghost var p := c.resourceQuotaStatus.encode(resourceQuotaStatus);
      DelimitedLength(1, p);
      NothingWritten(was, end);
      AppendNothing(DelimitedBytes(1, p));
      var size := PrependForeign(c.resourceQuotaStatus, resourceQuotaStatus, dAtA, end, was, []);
      var i := PrependHeader(dAtA, end - size, 0xa, size, was, p, []);
      return end - i;
    }

    method Unmarshal(c: ObjectCodecs, dAtA: seq<byte>) returns (err: Option<Error>)
      requires |dAtA| <= MAX_INT
      modifies this
      ensures Agrees(Decode(QuotaStatusSchema(c), old(Value()), dAtA), Value(), err)
    {
      hide Decode, ReadVarint, ReadTag, ReadExtent, SkipFrom;
      var l, iNdEx := |dAtA|, 0;
      while iNdEx < l
        invariant iNdEx <= l
        invariant Decode(QuotaStatusSchema(c), old(Value()), dAtA) == Decode(QuotaStatusSchema(c), Value(), dAtA, iNdEx)
        decreases l - iNdEx
      {
        ghost var s, m := QuotaStatusSchema(c), Value();
        DecodeTurn(s, m, dAtA, iNdEx);
        var preIndex := iNdEx;
        var fieldNum, wireType, postIndex;
        fieldNum, wireType, iNdEx, err := DecodeTag(dAtA, iNdEx);
        if err.Some? { return; }
        match fieldNum {
          case 1 =>
            PayloadTurn(s, m, dAtA, preIndex, (m: QuotaStatus, p: seq<byte>) => MergeQuotaStatus(c, m, p));
            if wireType != 2 { return Some(WrongWireType); }
            iNdEx, postIndex, err := DecodeLength(dAtA, iNdEx);
            if err.Some? { return; }
            match c.resourceQuotaStatus.merge(resourceQuotaStatus, dAtA[iNdEx..postIndex]) {
              case Ok(v) => resourceQuotaStatus := v;
              case Err(e) => return Some(e);
            }
            iNdEx := postIndex;
          case _ =>
            iNdEx, err := SkipUnknown(dAtA, preIndex, l);
            if err.Some? { return; }
        }
      }
      DecodeEnd(QuotaStatusSchema(c), Value(), dAtA);
      if iNdEx > l { return Some(UnexpectedEOF); }
      return None;
    }
  }

  class ClusterResourceQuota {
    var objectMeta: ObjectMeta
    const spec: ClusterResourceQuotaSpec
    const status: ClusterResourceQuotaStatus

    ghost function Repr(): set<object> {
      {this, spec, status}
    }

    function Value(): QuotaObject
      reads Repr()
    {
      QuotaObject(objectMeta, spec.Value(), status.Value())
    }

    constructor (c: ObjectCodecs)
      ensures fresh(Repr()) && Value() == ZeroObject(c)
    {
      objectMeta := c.objectMeta.zero;
      spec := new ClusterResourceQuotaSpec(c.spec);
      status := new ClusterResourceQuotaStatus(c);
    }

    constructor Of(m: QuotaObject)
      ensures fresh(Repr()) && Value() == m
    {
      objectMeta := m.objectMeta;
      spec := new ClusterResourceQuotaSpec.Of(m.spec);
      status := new ClusterResourceQuotaStatus.Of(m.status);
    }

    method Size(c: ObjectCodecs) returns (n: nat)
      ensures n == |EncodeObject(c, Value())|
    {
      hide DelimitedBytes, Sov, EncodeClusterQuota, EncodeQuotaStatus;
      var l := |c.objectMeta.encode(objectMeta)|;
      SizeOfDelimited(1, c.objectMeta.encode(objectMeta));
      n := 1 + l + Sov(l);
      l := spec.Size(c.spec);
      SizeOfDelimited(2, EncodeClusterQuota(c.spec, spec.Value()));
      n := n + 1 + l + Sov(l);
      l := status.Size(c);
      SizeOfDelimited(3, EncodeQuotaStatus(c, status.Value()));
      n := n + 1 + l + Sov(l);
    }

    method MarshalToSizedBuffer(c: ObjectCodecs, dAtA: array<byte>, end: nat) returns (n: nat)
      requires |EncodeObject(c, Value())| <= end <= dAtA.Length <= MAX_INT
      modifies dAtA
      ensures n == |EncodeObject(c, Value())|
      ensures dAtA[..] == Splice(old(dAtA[..]), end - n, EncodeObject(c, Value()))
    {
      hide DelimitedBytes, EncodeClusterQuota, EncodeQuotaStatus, Splice;
      ghost var was := dAtA[..];
      ghost var p1, p2, p3 := c.objectMeta.encode(objectMeta), EncodeClusterQuota(c.spec, spec.Value()), EncodeQuotaStatus(c, status.Value());
      ghost var x2, x3 := DelimitedBytes(2, p2), DelimitedBytes(3, p3);
      DelimitedLength(1, p1);
      DelimitedLength(2, p2);
      DelimitedLength(3, p3);
      NothingWritten(was, end);
      AppendNothing(p3);
      AppendNothing(x3);
      var size := status.MarshalToSizedBuffer(c, dAtA, end);
      var i := PrependHeader(dAtA, end - size, 0x1a, size, was, p3, []);
      size := spec.MarshalToSizedBuffer(c.spec, dAtA, i);
      SplicePrepend(was, i, x3, p2);
      i := PrependHeader(dAtA, i - size, 0x12, size, was, p2, x3);
      size := PrependForeign(c.objectMeta, objectMeta, dAtA, i, was, x2 + x3);
      i := PrependHeader(dAtA, i - size, 0xa, size, was, p1, x2 + x3);
      return end - i;
    }

    method Marshal(c: ObjectCodecs) returns (dAtA: seq<byte>)
      requires |EncodeObject(c, Value())| <= MAX_INT
      ensures dAtA == EncodeObject(c, Value())
    {
      hide EncodeObject;
      var size := Size(c);
      var buffer := new byte[size];
      var n := MarshalToSizedBuffer(c, buffer, size);
      dAtA := buffer[..n];
    }

    method MergeMetaField(c: ObjectCodecs, p: seq<byte>) returns (err: Option<Error>)
      modifies this
      ensures Agrees(MergeObjectMeta(c, old(Value()), p), Value(), err)
    {
      match c.objectMeta.merge(objectMeta, p) {
        case Ok(v) =>
          objectMeta := v;
          err := None;
        case Err(e) =>
          err := Some(e);
      }
    }

    method MergeSpecField(c: ObjectCodecs, p: seq<byte>) returns (err: Option<Error>)
      requires |p| <= MAX_INT
      modifies Repr()
      ensures Agrees(MergeObjectSpec(c, old(Value()), p), Value(), err)
    {
      hide Decode;
      err := spec.Unmarshal(c.spec, p);
    }

    method MergeStatusField(c: ObjectCodecs, p: seq<byte>) returns (err: Option<Error>)
      requires |p| <= MAX_INT
      modifies Repr()
      ensures Agrees(MergeObjectStatus(c, old(Value()), p), Value(), err)
    {
      hide Decode;
      err := status.Unmarshal(c, p);
    }

    /** The body of the decoding loop: one field, known or not. */
    method UnmarshalField(c: ObjectCodecs, dAtA: seq<byte>, preIndex: nat) returns (iNdEx: nat, err: Option<Error>)
      requires preIndex < |dAtA| <= MAX_INT
      modifies Repr()
      ensures match Step(ObjectSchema(c), old(Value()), dAtA, preIndex)
              case Ok(st) => err.None? && Value() == st.m && iNdEx == st.next
              case Err(e) => err.Some? && SameError(e, err.value)
    {
      hide ReadVarint, ReadTag, ReadExtent, SkipFrom, MergeObjectMeta, MergeObjectSpec, MergeObjectStatus;
      ghost var s, m := ObjectSchema(c), Value();
      var fieldNum, wireType, postIndex;
      fieldNum, wireType, iNdEx, err := DecodeTag(dAtA, preIndex);
      if err.Some? { return; }
      match fieldNum {
        case 1 =>
          PayloadTurn(s, m, dAtA, preIndex, (m: QuotaObject, p: seq<byte>) => MergeObjectMeta(c, m, p));
          if wireType != 2 { return iNdEx, Some(WrongWireType); }
          iNdEx, postIndex, err := DecodeLength(dAtA, iNdEx);
          if err.Some? { return; }
          err := MergeMetaField(c, dAtA[iNdEx..postIndex]);
          iNdEx := postIndex;
        case 2 =>
          PayloadTurn(s, m, dAtA, preIndex, (m: QuotaObject, p: seq<byte>) => MergeObjectSpec(c, m, p));
          if wireType != 2 { return iNdEx, Some(WrongWireType); }
          iNdEx, postIndex, err := DecodeLength(dAtA, iNdEx);
          if err.Some? { return; }
          err := MergeSpecField(c, dAtA[iNdEx..postIndex]);
          iNdEx := postIndex;
        case 3 =>
          PayloadTurn(s, m, dAtA, preIndex, (m: QuotaObject, p: seq<byte>) => MergeObjectStatus(c, m, p));
          if wireType != 2 { return iNdEx, Some(WrongWireType); }
          iNdEx, postIndex, err := DecodeLength(dAtA, iNdEx);
          if err.Some? { return; }
          err := MergeStatusField(c, dAtA[iNdEx..postIndex]);
          iNdEx := postIndex;
        case _ =>
          iNdEx, err := SkipUnknown(dAtA, preIndex, |dAtA|);
      }
    }

    method Unmarshal(c: ObjectCodecs, dAtA: seq<byte>) returns (err: Option<Error>)
      requires |dAtA| <= MAX_INT
      modifies Repr()
      ensures Agrees(Decode(ObjectSchema(c), old(Value()), dAtA), Value(), err)
    {
      hide Decode, Step, ObjectSchema;
      var l, iNdEx := |dAtA|, 0;
      while iNdEx < l
        invariant iNdEx <= l
        invariant Decode(ObjectSchema(c), old(Value()), dAtA) == Decode(ObjectSchema(c), Value(), dAtA, iNdEx)
        decreases l - iNdEx
      {
        DecodeTurn(ObjectSchema(c), Value(), dAtA, iNdEx);
        iNdEx, err := UnmarshalField(c, dAtA, iNdEx);
        if err.Some? { return; }
      }
      DecodeEnd(ObjectSchema(c), Value(), dAtA);
      if iNdEx > l { return Some(UnexpectedEOF); }
      return None;
    }
  }

  /** The items are the elements of a Go slice of structs, kept as values: an element
      that is marshalled or unmarshalled is put into an object first. */
  class ClusterResourceQuotaList {
    var listMeta: ListMeta
    var items: seq<QuotaObject>

    ghost function Value(): QuotaList
      reads this
    {
      QuotaList(listMeta, items)
    }

    constructor (c: ObjectCodecs)
      ensures Value() == ZeroList(c)
    {
      listMeta, items := c.listMeta.zero, [];
    }

    method Size(c: ObjectCodecs) returns (n: nat)
      ensures n == |EncodeList(c, Value())|
    {
      hide DelimitedBytes, EncodeObject, Sov;
      var l := |c.listMeta.encode(listMeta)|;
      SizeOfDelimited(1, c.listMeta.encode(listMeta));
      n := 1 + l + Sov(l);
      ghost var total := n + |EncodeItems(c, items)|;
      assert items[0..] == items;
      for k := 0 to |items|
        invariant n + |EncodeItems(c, items[k..])| == total
      {
        ItemsSplit(c, items, k);
        SizeOfDelimited(2, EncodeObject(c, items[k]));
        var item := new ClusterResourceQuota.Of(items[k]);
        l := item.Size(c);
        n := n + 1 + l + Sov(l);
      }
    }

    /** The items are written from the last to the first. */
    method PrependItems(c: ObjectCodecs, dAtA: array<byte>, end: nat, ghost was: seq<byte>) returns (i: nat)
      requires |EncodeItems(c, items)| <= end <= |was| == dAtA.Length <= MAX_INT && dAtA[..] == was
      modifies dAtA
      ensures i + |EncodeItems(c, items)| == end
      ensures dAtA[..] == Splice(was, i, EncodeItems(c, items))
    {
      hide DelimitedBytes, EncodeObject, EncodeItems, Splice;
      NothingWritten(was, end);
      NoItems(c, items);
      i := end;
      var iNdEx: nat := |items|;
      while iNdEx > 0
        invariant iNdEx <= |items|
        invariant i + |EncodeItems(c, items[iNdEx..])| == end
        invariant dAtA[..] == Splice(was, i, EncodeItems(c, items[iNdEx..]))
      {
        iNdEx := iNdEx - 1;
        ItemsSplit(c, items, iNdEx);
        ghost var out, p := EncodeItems(c, items[iNdEx + 1..]), EncodeObject(c, items[iNdEx]);
        DelimitedLength(2, p);
        var item := new ClusterResourceQuota.Of(items[iNdEx]);
        var size := item.MarshalToSizedBuffer(c, dAtA, i);
        SplicePrepend(was, i, out, p);
        i := PrependHeader(dAtA, i - size, 0x12, size, was, p, out);
      }
      assert items[0..] == items;
    }

    method MarshalToSizedBuffer(c: ObjectCodecs, dAtA: array<byte>, end: nat) returns (n: nat)
      requires |EncodeList(c, Value())| <= end <= dAtA.Length <= MAX_INT
      modifies dAtA
      ensures n == |EncodeList(c, Value())|
      ensures dAtA[..] == Splice(old(dAtA[..]), end - n, EncodeList(c, Value()))
    {
      hide DelimitedBytes, EncodeItems, Splice;
      ghost var was := dAtA[..];
      ghost var p := c.listMeta.encode(listMeta);
      DelimitedLength(1, p);
      var i := PrependItems(c, dAtA, end, was);
      var size := PrependForeign(c.listMeta, listMeta, dAtA, i, was, EncodeItems(c, items));
      i := PrependHeader(dAtA, i - size, 0xa, size, was, p, EncodeItems(c, items));
      return end - i;
    }

    method Marshal(c: ObjectCodecs) returns (dAtA: seq<byte>)
      requires |EncodeList(c, Value())| <= MAX_INT
      ensures dAtA == EncodeList(c, Value())
    {
      hide EncodeList;
      var size := Size(c);
      var buffer := new byte[size];
      var n := MarshalToSizedBuffer(c, buffer, size);
      dAtA := buffer[..n];
    }

    /** One more item, and the payload merged into it. */
    method UnmarshalItem(c: ObjectCodecs, p: seq<byte>) returns (err: Option<Error>)
      requires |p| <= MAX_INT
      modifies this
      ensures Agrees(AppendItem(c, old(Value()), p), Value(), err)
    {
      hide Decode, ObjectSchema, ZeroObject;
      var item := new ClusterResourceQuota(c);
      err := item.Unmarshal(c, p);
      items := items + [item.Value()];
    }

    method Unmarshal(c: ObjectCodecs, dAtA: seq<byte>) returns (err: Option<Error>)
      requires |dAtA| <= MAX_INT
      modifies this
      ensures Agrees(Decode(ListSchema(c), old(Value()), dAtA), Value(), err)
    {
      hide Decode, ReadVarint, ReadTag, ReadExtent, SkipFrom, AppendItem;
      var l, iNdEx := |dAtA|, 0;
      while iNdEx < l
        invariant iNdEx <= l
        invariant Decode(ListSchema(c), old(Value()), dAtA) == Decode(ListSchema(c), Value(), dAtA, iNdEx)
        decreases l - iNdEx
      {
        ghost var s, m := ListSchema(c), Value();
        DecodeTurn(s, m, dAtA, iNdEx);
        var preIndex := iNdEx;
        var fieldNum, wireType, postIndex;
        fieldNum, wireType, iNdEx, err := DecodeTag(dAtA, iNdEx);
        if err.Some? { return; }
        match fieldNum {
          case 1 =>
            PayloadTurn(s, m, dAtA, preIndex, (m: QuotaList, p: seq<byte>) => MergeListMeta(c, m, p));
            if wireType != 2 { return Some(WrongWireType); }
            iNdEx, postIndex, err := DecodeLength(dAtA, iNdEx);
            if err.Some? { return; }
            match c.listMeta.merge(listMeta, dAtA[iNdEx..postIndex]) {
              case Ok(v) => listMeta := v;
              case Err(e) => return Some(e);
            }
            iNdEx := postIndex;
          case 2 =>
            PayloadTurn(s, m, dAtA, preIndex, (m: QuotaList, p: seq<byte>) => AppendItem(c, m, p));
            if wireType != 2 { return Some(WrongWireType); }
            iNdEx, postIndex, err := DecodeLength(dAtA, iNdEx);
            if err.Some? { return; }
            err := UnmarshalItem(c, dAtA[iNdEx..postIndex]);
            if err.Some? { return; }
            iNdEx := postIndex;
          case _ =>
            iNdEx, err := SkipUnknown(dAtA, preIndex, l);
            if err.Some? { return; }
        }
      }
      DecodeEnd(ListSchema(c), Value(), dAtA);
      if iNdEx > l { return Some(UnexpectedEOF); }
      return None;
    }
  }
}
