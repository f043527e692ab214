/** The Go struct Tenant: metadata, spec and status (tenant/v1alpha1). */
module TenantObjects {
  import opened Common
  import opened Varint
  import opened WireFields
  import opened Message
  import opened TenantMessages
  import opened Generated
  import opened TenantCodec

  class TenantObject {
    var objectMeta: ObjectMeta
    const spec: TenantSpec
    const status: TenantStatus

    ghost function Repr(): set<object>
      reads this, spec
    {
      {this, status} + spec.Repr()
    }

    ghost function Value(): Tenant
      reads Repr()
    {
      Tenant(objectMeta, spec.Value(), status.Value())
    }

    constructor (c: Codecs)
      ensures fresh(Repr()) && Value() == ZeroTenant(c)
    {
      objectMeta := c.objectMeta.zero;
      spec := new TenantSpec();
      status := new TenantStatus();
    }

    method Size(c: Codecs) returns (n: nat)
      ensures n == |EncodeTenant(c, Value())|
    {
      hide DelimitedBytes, Sov, EncodeSpec, EncodeStatus;
      var l := |c.objectMeta.encode(objectMeta)|;
      SizeOfDelimited(1, c.objectMeta.encode(objectMeta));
      n := 1 + l + Sov(l);
      l := spec.Size(c);
      SizeOfDelimited(2, EncodeSpec(c, spec.Value()));
      n := n + 1 + l + Sov(l);
      l := status.Size();
      SizeOfDelimited(3, EncodeStatus(status.Value()));
      n := n + 1 + l + Sov(l);
    }

    method MarshalToSizedBuffer(c: Codecs, dAtA: array<byte>, end: nat) returns (n: nat)
      requires |EncodeTenant(c, Value())| <= end <= dAtA.Length <= MAX_INT
      modifies dAtA
      ensures n == |EncodeTenant(c, Value())|
      ensures dAtA[..] == Splice(old(dAtA[..]), end - n, EncodeTenant(c, Value()))
    {
      hide DelimitedBytes, EncodeSpec, EncodeStatus, Splice;
      ghost var was := dAtA[..];
      ghost var p1, p2, p3 := c.objectMeta.encode(objectMeta), EncodeSpec(c, spec.Value()), EncodeStatus(status.Value());
      ghost var x2, x3 := DelimitedBytes(2, p2), DelimitedBytes(3, p3);
      DelimitedLength(1, p1);
      DelimitedLength(2, p2);
      DelimitedLength(3, p3);
      NothingWritten(was, end);
      AppendNothing(p3);
      AppendNothing(x3);
      var size := status.MarshalToSizedBuffer(dAtA, end);
      var i := PrependHeader(dAtA, end - size, 0x1a, size, was, p3, []);
      size := spec.MarshalToSizedBuffer(c, dAtA, i);
      SplicePrepend(was, i, x3, p2);
      i := PrependHeader(dAtA, i - size, 0x12, size, was, p2, x3);
      size := PrependForeign(c.objectMeta, objectMeta, dAtA, i, was, x2 + x3);
      i := PrependHeader(dAtA, i - size, 0xa, size, was, p1, x2 + x3);
      return end - i;
    }

    method Marshal(c: Codecs) returns (dAtA: seq<byte>)
      requires |EncodeTenant(c, Value())| <= MAX_INT
      ensures dAtA == EncodeTenant(c, Value())
    {
      hide EncodeTenant;
      var size := Size(c);
      var buffer := new byte[size];
      var n := MarshalToSizedBuffer(c, buffer, size);
      dAtA := buffer[..n];
    }

    method MergeMetaField(c: Codecs, p: seq<byte>) returns (err: Option<Error>)
      modifies this
      ensures Repr() == old(Repr())
      ensures Agrees(MergeMeta(c, old(Value()), p), Value(), err)
    {
      match c.objectMeta.merge(objectMeta, p) {
        case Ok(v) =>
          objectMeta := v;
          err := None;
        case Err(e) =>
          err := Some(e);
      }
    }

    method MergeSpecField(c: Codecs, p: seq<byte>) returns (err: Option<Error>)
      requires |p| <= MAX_INT
      modifies Repr()
      ensures fresh(Repr() - old(Repr()))
      ensures Agrees(MergeSpec(c, old(Value()), p), Value(), err)
    {
      hide Decode;
      err := spec.Unmarshal(c, p);
    }

    method MergeStatusField(c: Codecs, p: seq<byte>) returns (err: Option<Error>)
      requires |p| <= MAX_INT
      modifies Repr()
      ensures fresh(Repr() - old(Repr()))
      ensures Agrees(MergeStatus(old(Value()), p), Value(), err)
    {
      hide Decode;
      err := status.Unmarshal(p);
    }

    /** The body of the decoding loop: one field, known or not. */
    method UnmarshalField(c: Codecs, dAtA: seq<byte>, preIndex: nat) returns (iNdEx: nat, err: Option<Error>)
      requires preIndex < |dAtA| <= MAX_INT
      modifies Repr()
      ensures fresh(Repr() - old(Repr()))
      ensures match Step(TenantSchema(c), old(Value()), dAtA, preIndex)
              case Ok(st) => err.None? && Value() == st.m && iNdEx == st.next
              case Err(e) => err.Some? && SameError(e, err.value)
    {
      hide ReadVarint, ReadTag, ReadExtent, SkipFrom, MergeMeta, MergeSpec, MergeStatus;
      ghost var s, m := TenantSchema(c), Value();
      var fieldNum, wireType, postIndex;
      fieldNum, wireType, iNdEx, err := DecodeTag(dAtA, preIndex);
      if err.Some? { return; }
      match fieldNum {
        case 1 =>
          PayloadTurn(s, m, dAtA, preIndex, (m: Tenant, p: seq<byte>) => MergeMeta(c, m, p));
          if wireType != 2 { return iNdEx, Some(WrongWireType); }
          iNdEx, postIndex, err := DecodeLength(dAtA, iNdEx);
          if err.Some? { return; }
          err := MergeMetaField(c, dAtA[iNdEx..postIndex]);
          iNdEx := postIndex;
        case 2 =>
          PayloadTurn(s, m, dAtA, preIndex, (m: Tenant, p: seq<byte>) => MergeSpec(c, m, p));
          if wireType != 2 { return iNdEx, Some(WrongWireType); }
          iNdEx, postIndex, err := DecodeLength(dAtA, iNdEx);
          if err.Some? { return; }
          err := MergeSpecField(c, dAtA[iNdEx..postIndex]);
          iNdEx := postIndex;
        case 3 =>
          PayloadTurn(s, m, dAtA, preIndex, (m: Tenant, p: seq<byte>) => MergeStatus(m, p));
          if wireType != 2 { return iNdEx, Some(WrongWireType); }
          iNdEx, postIndex, err := DecodeLength(dAtA, iNdEx);
          if err.Some? { return; }
          err := MergeStatusField(c, dAtA[iNdEx..postIndex]);
          iNdEx := postIndex;
        case _ =>
          iNdEx, err := SkipUnknown(dAtA, preIndex, |dAtA|);
      }
    }

    method Unmarshal(c: Codecs, dAtA: seq<byte>) returns (err: Option<Error>)
      requires |dAtA| <= MAX_INT
      modifies Repr()
      ensures fresh(Repr() - old(Repr()))
      ensures Agrees(Decode(TenantSchema(c), old(Value()), dAtA), Value(), err)
    {
      hide Decode, Step, TenantSchema;
      var l, iNdEx := |dAtA|, 0;
      while iNdEx < l
        invariant iNdEx <= l
        invariant fresh(Repr() - old(Repr()))
        invariant Decode(TenantSchema(c), old(Value()), dAtA) == Decode(TenantSchema(c), Value(), dAtA, iNdEx)
        decreases l - iNdEx
      {
        DecodeTurn(TenantSchema(c), Value(), dAtA, iNdEx);
        iNdEx, err := UnmarshalField(c, dAtA, iNdEx);
        if err.Some? { return; }
      }
      DecodeEnd(TenantSchema(c), Value(), dAtA);
      if iNdEx > l { return Some(UnexpectedEOF); }
      return None;
    }
  }

  /** What protobuf_test.go asks for: a tenant that is marshalled and unmarshalled into
      a new one is the same tenant. */
  method MarshalUnmarshal(c: Codecs, original: TenantObject) returns (out: TenantObject, err: Option<Error>)
    requires AllLawful(c) && |EncodeTenant(c, original.Value())| <= MAX_INT
    ensures err.None? && fresh(out.Repr()) && out.Value() == original.Value()
  {
    hide Decode, EncodeTenant, TenantSchema;
    var dAtA := original.Marshal(c);
    TenantRoundTrip(c, original.Value());
    out := new TenantObject(c);
    err := out.Unmarshal(c, dAtA);
  }
}
