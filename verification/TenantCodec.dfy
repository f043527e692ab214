/** The tenant messages as the Go structs they are: Size, MarshalToSizedBuffer,
    Marshal and Unmarshal of generated.pb.go, proved against TenantMessages. */
module TenantCodec {
  import opened Common
  import opened Varint
  import opened WireFields
  import opened Message
  import opened SortedKeys
  import opened TenantMessages
  import opened Generated

  /** Bytes already written in front of index i of an empty output. */
  lemma NothingWritten(before: seq<byte>, end: nat)
    requires end <= |before|
    ensures Splice(before, end, []) == before
  {
  }

  lemma AppendNothing(s: seq<byte>)
    ensures s + [] == s && [] + s == s
  {
  }

  /** One turn of a decoding loop. */
  lemma DecodeTurn<M>(s: Schema<M>, m: M, d: seq<byte>, i: nat)
    requires i < |d|
    ensures Decode(s, m, d, i) == match Step(s, m, d, i)
                                  case Ok(st) => Decode(s, st.m, d, st.next)
                                  case Err(e) => Err(e)
  {
  }

  /** The varint loop of an int32 field. */
  method DecodeInt32(dAtA: seq<byte>, start: nat) returns (v: int32, iNdEx: nat, err: Option<Error>)
    requires start <= |dAtA|
    ensures match ReadVarint(dAtA, start)
            case Ok(r) => err.None? && iNdEx == r.next && v == Int32(r.value)
            case Err(e) => err == Some(e)
  {
    hide ReadVarint;
    var pattern;
    pattern, iNdEx, err := DecodeVarint(dAtA, start, W32);
    if err.None? { SignedTruncate(ReadVarint(dAtA, start).value.value); }
    v := Signed(pattern, W32);
  }

  lemma SignedTruncate(x: nat)
    ensures Signed(Truncate(x, W32), W32) == Int32(x)
  {
  }

  /** Writes an *int32 field unless it is nil. */
  method PrependOptionalInt32(dAtA: array<byte>, i: nat, tag: byte, v: Option<int32>, ghost was: seq<byte>, ghost out: seq<byte>)
    returns (j: nat)
    requires tag < 128 && tag % 8 == 0
    requires i + |out| <= |was| == dAtA.Length && dAtA[..] == Splice(was, i, out)
    requires |OptionalInt32(tag / 8, v)| <= i
    modifies dAtA
    ensures j == i - |OptionalInt32(tag / 8, v)|
    ensures dAtA[..] == Splice(was, j, OptionalInt32(tag / 8, v) + out)
  {
    hide ScalarBytes, Splice;
    j := i;
    AppendNothing(out);
    if v.Some? {
      j := PrependScalar(dAtA, i, tag, AsUint64(v.value), was, out);
    }
  }

  class TenantCapacity {
    var maxNamespaces: Option<int32>
    var maxClusterRoleBindings: Option<int32>
    var maxCRDs: Option<int32>

    ghost function Value(): Capacity
      reads this
    {
      Capacity(maxNamespaces, maxClusterRoleBindings, maxCRDs)
    }

    constructor ()
      ensures Value() == ZERO_CAPACITY
    {
      maxNamespaces, maxClusterRoleBindings, maxCRDs := None, None, None;
    }

    method Size() returns (n: nat)
      ensures n == |EncodeCapacity(Value())|
    {
      hide EncodeVarint, Sov;
      OneByte(8);
      OneByte(16);
      OneByte(24);
      n := 0;
      if maxNamespaces.Some? {
        SovCountsDigits(AsUint64(maxNamespaces.value));
        n := n + 1 + Sov(AsUint64(maxNamespaces.value));
      }
      if maxClusterRoleBindings.Some? {
        SovCountsDigits(AsUint64(maxClusterRoleBindings.value));
        n := n + 1 + Sov(AsUint64(maxClusterRoleBindings.value));
      }
      if maxCRDs.Some? {
        SovCountsDigits(AsUint64(maxCRDs.value));
        n := n + 1 + Sov(AsUint64(maxCRDs.value));
      }
    }

    method MarshalToSizedBuffer(dAtA: array<byte>, end: nat) returns (n: nat)
      requires |EncodeCapacity(Value())| <= end <= dAtA.Length
      modifies dAtA
      ensures n == |EncodeCapacity(Value())|
      ensures dAtA[..] == Splice(old(dAtA[..]), end - n, EncodeCapacity(Value()))
    {
      hide OptionalInt32, Splice;
      ghost var was := dAtA[..];
      ghost var x, y, z := OptionalInt32(1, maxNamespaces), OptionalInt32(2, maxClusterRoleBindings), OptionalInt32(3, maxCRDs);
      NothingWritten(was, end);
      AppendNothing(z);
      var i := PrependOptionalInt32(dAtA, end, 0x18, maxCRDs, was, []);
      i := PrependOptionalInt32(dAtA, i, 0x10, maxClusterRoleBindings, was, z);
      i := PrependOptionalInt32(dAtA, i, 0x8, maxNamespaces, was, y + z);
      return end - i;
    }

    method Marshal() returns (dAtA: seq<byte>)
      ensures dAtA == EncodeCapacity(Value())
    {
      hide EncodeCapacity;
      var size := Size();
      var buffer := new byte[size];
      var n := MarshalToSizedBuffer(buffer, size);
      dAtA := buffer[..n];
    }

    method Unmarshal(dAtA: seq<byte>) returns (err: Option<Error>)
      requires |dAtA| <= MAX_INT
      modifies this
      ensures Agrees(Decode(CapacitySchema(), old(Value()), dAtA), Value(), err)
    {
      hide Decode, ReadVarint, ReadTag, SkipFrom;
      var l, iNdEx := |dAtA|, 0;
      while iNdEx < l
        invariant iNdEx <= l
        invariant Decode(CapacitySchema(), old(Value()), dAtA) == Decode(CapacitySchema(), Value(), dAtA, iNdEx)
        decreases l - iNdEx
      {
        DecodeTurn(CapacitySchema(), Value(), dAtA, iNdEx);
        var preIndex := iNdEx;
        var fieldNum, wireType;
        fieldNum, wireType, iNdEx, err := DecodeTag(dAtA, iNdEx);
        if err.Some? { return; }
        match fieldNum {
          case 1 =>
            if wireType != 0 { return Some(WrongWireType); }
            var v;
            v, iNdEx, err := DecodeInt32(dAtA, iNdEx);
            if err.Some? { return; }
            maxNamespaces := Some(v);
          case 2 =>
            if wireType != 0 { return Some(WrongWireType); }
            var v;
            v, iNdEx, err := DecodeInt32(dAtA, iNdEx);
            if err.Some? { return; }
            maxClusterRoleBindings := Some(v);
          case 3 =>
            if wireType != 0 { return Some(WrongWireType); }
            var v;
            v, iNdEx, err := DecodeInt32(dAtA, iNdEx);
            if err.Some? { return; }
            maxCRDs := Some(v);
          case _ =>
            iNdEx, err := SkipUnknown(dAtA, preIndex, l);
            if err.Some? { return; }
        }
      }
      DecodeEnd(CapacitySchema(), Value(), dAtA);
      if iNdEx > l { return Some(UnexpectedEOF); }
      return None;
    }
  }

  class TenantSuspension {
    var mode: Str
    var reason: Str

    ghost function Value(): Suspension
      reads this
    {
      Suspension(mode, reason)
    }

    constructor ()
      ensures Value() == ZERO_SUSPENSION
    {
      mode, reason := [], [];
    }

    method Size() returns (n: nat)
      ensures n == |EncodeSuspension(Value())|
    {
      hide EncodeVarint, Sov;
      OneByte(10);
      OneByte(18);
      SovCountsDigits(|mode|);
      SovCountsDigits(|reason|);
      n := 1 + |mode| + Sov(|mode|);
      n := n + 1 + |reason| + Sov(|reason|);
    }

    method MarshalToSizedBuffer(dAtA: array<byte>, end: nat) returns (n: nat)
      requires |EncodeSuspension(Value())| <= end <= dAtA.Length <= MAX_INT
      modifies dAtA
      ensures n == |EncodeSuspension(Value())|
      ensures dAtA[..] == Splice(old(dAtA[..]), end - n, EncodeSuspension(Value()))
    {
      hide DelimitedBytes, Splice;
      ghost var was := dAtA[..];
      ghost var y := DelimitedBytes(2, reason);
      DelimitedLength(1, mode);
      DelimitedLength(2, reason);
      NothingWritten(was, end);
      AppendNothing(y);
      var i := PrependBytes(dAtA, end, reason, was, []);
      i := PrependHeader(dAtA, i, 0x12, |reason|, was, reason, []);
      i := PrependBytes(dAtA, i, mode, was, y);
      i := PrependHeader(dAtA, i, 0xa, |mode|, was, mode, y);
      return end - i;
    }

    method Marshal() returns (dAtA: seq<byte>)
      requires |EncodeSuspension(Value())| <= MAX_INT
      ensures dAtA == EncodeSuspension(Value())
    {
      hide EncodeSuspension;
      var size := Size();
      var buffer := new byte[size];
      var n := MarshalToSizedBuffer(buffer, size);
      dAtA := buffer[..n];
    }

    method Unmarshal(dAtA: seq<byte>) returns (err: Option<Error>)
      requires |dAtA| <= MAX_INT
      modifies this
      ensures Agrees(Decode(SuspensionSchema(), old(Value()), dAtA), Value(), err)
    {
      hide Decode, ReadVarint, ReadTag, ReadExtent, SkipFrom;
      var l, iNdEx := |dAtA|, 0;
      while iNdEx < l
        invariant iNdEx <= l
        invariant Decode(SuspensionSchema(), old(Value()), dAtA) == Decode(SuspensionSchema(), Value(), dAtA, iNdEx)
        decreases l - iNdEx
      {
        DecodeTurn(SuspensionSchema(), Value(), dAtA, iNdEx);
        var preIndex := iNdEx;
        var fieldNum, wireType, postIndex;
        fieldNum, wireType, iNdEx, err := DecodeTag(dAtA, iNdEx);
        if err.Some? { return; }
        match fieldNum {
          case 1 =>
            PayloadTurn(SuspensionSchema(), Value(), dAtA, preIndex, SetMode);
            if wireType != 2 { return Some(WrongWireType); }
            iNdEx, postIndex, err := DecodeLength(dAtA, iNdEx);
            if err.Some? { return; }
            mode := dAtA[iNdEx..postIndex];
            iNdEx := postIndex;
          case 2 =>
            PayloadTurn(SuspensionSchema(), Value(), dAtA, preIndex, SetReason);
            if wireType != 2 { return Some(WrongWireType); }
            iNdEx, postIndex, err := DecodeLength(dAtA, iNdEx);
            if err.Some? { return; }
            reason := dAtA[iNdEx..postIndex];
            iNdEx := postIndex;
          case _ =>
            iNdEx, err := SkipUnknown(dAtA, preIndex, l);
            if err.Some? { return; }
        }
      }
      DecodeEnd(SuspensionSchema(), Value(), dAtA);
      if iNdEx > l { return Some(UnexpectedEOF); }
      return None;
    }
  }

  class TenantStatus {
    var online: bool

    ghost function Value(): Status
      reads this
    {
      Status(online)
    }

    constructor ()
      ensures Value() == ZERO_STATUS
    {
      online := false;
    }

    method Size() returns (n: nat)
      ensures n == |EncodeStatus(Value())|
    {
      n := 2;
    }

    method MarshalToSizedBuffer(dAtA: array<byte>, end: nat) returns (n: nat)
      requires |EncodeStatus(Value())| <= end <= dAtA.Length
      modifies dAtA
      ensures n == |EncodeStatus(Value())|
      ensures dAtA[..] == Splice(old(dAtA[..]), end - n, EncodeStatus(Value()))
    {
      var i := end - 1;
      if online {
        dAtA[i] := 1;
      } else {
        dAtA[i] := 0;
      }
      i := i - 1;
      dAtA[i] := 0x8;
      return end - i;
    }

    method Unmarshal(dAtA: seq<byte>) returns (err: Option<Error>)
      requires |dAtA| <= MAX_INT
      modifies this
      ensures Agrees(Decode(StatusSchema(), old(Value()), dAtA), Value(), err)
    {
      hide Decode, ReadVarint, ReadTag, SkipFrom;
      var l, iNdEx := |dAtA|, 0;
      while iNdEx < l
        invariant iNdEx <= l
        invariant Decode(StatusSchema(), old(Value()), dAtA) == Decode(StatusSchema(), Value(), dAtA, iNdEx)
        decreases l - iNdEx
      {
        DecodeTurn(StatusSchema(), Value(), dAtA, iNdEx);
        var preIndex := iNdEx;
        var fieldNum, wireType;
        fieldNum, wireType, iNdEx, err := DecodeTag(dAtA, iNdEx);
        if err.Some? { return; }
        match fieldNum {
          case 1 =>
            if wireType != 0 { return Some(WrongWireType); }
            var v;
            v, iNdEx, err := DecodeVarint(dAtA, iNdEx, W64);
            if err.Some? { return; }
            online := Signed(v, W64) != 0;
          case _ =>
            iNdEx, err := SkipUnknown(dAtA, preIndex, l);
            if err.Some? { return; }
        }
      }
      DecodeEnd(StatusSchema(), Value(), dAtA);
      if iNdEx > l { return Some(UnexpectedEOF); }
      return None;
    }
  }

  // ------------------------------------------------------------------- the quota

  /** The bytes of the entries of some keys, whatever order they are counted in. */
  ghost function TotalSize(c: Codec<Quantity>, ks: set<Str>, hard: map<Str, Quantity>): nat
    requires ks <= hard.Keys
  {
    ListingElements(ks);
    |EncodeEntries(c, Listing(ks), hard)|
  }

  lemma {:induction false} TotalSizeOfOne(c: Codec<Quantity>, ks: set<Str>, hard: map<Str, Quantity>, k: Str)
    requires ks <= hard.Keys && k in ks
    ensures TotalSize(c, ks, hard) == |DelimitedBytes(1, EntryBody(c, k, hard[k]))| + TotalSize(c, ks - {k}, hard)
    decreases |ks|
  {
    hide DelimitedBytes, EntryBody;
    var least := Least(ks);
    ListingElements(ks);
    if k != least {
      TotalSizeOfOne(c, ks - {least}, hard, k);
      assert IsLeast(least, ks - {k});
      LeastIsUnique(least, Least(ks - {k}), ks - {k});
      assert ks - {k} - {least} == ks - {least} - {k};
      ListingElements(ks - {k});
    }
    assert Listing(ks)[1..] == Listing(ks - {least});
  }

  lemma SizeOfDelimited(number: nat, p: seq<byte>)
    requires 0 < number < 16
    ensures |DelimitedBytes(number, p)| == 1 + Sov(|p|) + |p|
  {
    OneByte(8 * number + 2);
    SovCountsDigits(|p|);
  }

  class TenantQuota {
    var hard: map<Str, Quantity>

    ghost function Value(): Quota
      reads this
    {
      Quota(hard)
    }

    constructor ()
      ensures Value() == ZERO_QUOTA
    {
      hard := map[];
    }

    /** The map is ranged over in whatever order it comes. */
    method Size(c: Codec<Quantity>) returns (n: nat)
      ensures n == |EncodeQuota(c, Value())|
    {
      hide DelimitedBytes, Sov;
      n := 0;
      var todo := hard.Keys;
      while todo != {}
        invariant todo <= hard.Keys
        invariant n + TotalSize(c, todo, hard) == TotalSize(c, hard.Keys, hard)
        decreases |todo|
      {
        var k :| k in todo;
        TotalSizeOfOne(c, todo, hard, k);
        var l := |c.encode(hard[k])|;
        SizeOfDelimited(1, k);
        SizeOfDelimited(2, c.encode(hard[k]));
        SizeOfDelimited(1, EntryBody(c, k, hard[k]));
        var mapEntrySize := 1 + |k| + Sov(|k|) + 1 + l + Sov(l);
        n := n + mapEntrySize + 1 + Sov(mapEntrySize);
        todo := todo - {k};
      }
    }

    method MarshalToSizedBuffer(c: Codec<Quantity>, dAtA: array<byte>, end: nat) returns (n: nat)
      requires |EncodeQuota(c, Value())| <= end <= dAtA.Length <= MAX_INT
      modifies dAtA
      ensures n == |EncodeQuota(c, Value())|
      ensures dAtA[..] == Splice(old(dAtA[..]), end - n, EncodeQuota(c, Value()))
    {
      hide EncodeEntries, DelimitedBytes, EntryBody, Splice;
      var keysForHard := SortedListing(hard.Keys);
      ListingElements(hard.Keys);
      ghost var was, all := dAtA[..], EncodeEntries(c, keysForHard, hard);
      NothingWritten(was, end);
      NoEntries(c, keysForHard, hard);
      var i: nat := end;
      var iNdEx: nat := |keysForHard|;
      while iNdEx > 0
        invariant iNdEx <= |keysForHard|
        invariant i + |EncodeEntries(c, keysForHard[iNdEx..], hard)| == end
        invariant dAtA[..] == Splice(was, i, EncodeEntries(c, keysForHard[iNdEx..], hard))
      {
        iNdEx := iNdEx - 1;
        EntriesShrink(c, keysForHard, hard, iNdEx);
        var k := keysForHard[iNdEx];
        i := PrependEntry(c, dAtA, i, k, hard[k], was, EncodeEntries(c, keysForHard[iNdEx + 1..], hard));
      }
      assert keysForHard[0..] == keysForHard;
      return end - i;
    }

    method Unmarshal(c: Codec<Quantity>, dAtA: seq<byte>) returns (err: Option<Error>)
      requires |dAtA| <= MAX_INT
      modifies this
      ensures Agrees(Decode(QuotaSchema(c), old(Value()), dAtA), Value(), err)
    {
      hide Decode, ReadVarint, ReadTag, ReadExtent, SkipFrom, EntryLoop;
      var l, iNdEx := |dAtA|, 0;
      while iNdEx < l
        invariant iNdEx <= l
        invariant Decode(QuotaSchema(c), old(Value()), dAtA) == Decode(QuotaSchema(c), Value(), dAtA, iNdEx)
        decreases l - iNdEx
      {
        DecodeTurn(QuotaSchema(c), Value(), dAtA, iNdEx);
        var preIndex := iNdEx;
        var fieldNum, wireType, postIndex;
        fieldNum, wireType, iNdEx, err := DecodeTag(dAtA, iNdEx);
        if err.Some? { return; }
        match fieldNum {
          case 1 =>
            if wireType != 2 { return Some(WrongWireType); }
            iNdEx, postIndex, err := DecodeLength(dAtA, iNdEx);
            if err.Some? { return; }
            var mapkey, mapvalue;
            mapkey, mapvalue, iNdEx, err := DecodeEntry(c, dAtA, iNdEx, postIndex);
            if err.Some? { return; }
            hard := hard[mapkey := mapvalue];
            iNdEx := postIndex;
          case _ =>
            iNdEx, err := SkipUnknown(dAtA, preIndex, l);
            if err.Some? { return; }
        }
      }
      DecodeEnd(QuotaSchema(c), Value(), dAtA);
      if iNdEx > l { return Some(UnexpectedEOF); }
      return None;
    }
  }

  lemma NoEntries(c: Codec<Quantity>, keys: seq<Str>, hard: map<Str, Quantity>)
    ensures EncodeEntries(c, keys[|keys|..], hard) == []
  {
  }

  lemma {:induction false} EntriesShrink(c: Codec<Quantity>, keys: seq<Str>, hard: map<Str, Quantity>, k: nat)
    requires k < |keys| && forall x | x in keys :: x in hard
    ensures EncodeEntries(c, keys[k..], hard) ==
            DelimitedBytes(1, EntryBody(c, keys[k], hard[keys[k]])) + EncodeEntries(c, keys[k + 1..], hard)
    ensures |EncodeEntries(c, keys[k..], hard)| <= |EncodeEntries(c, keys, hard)|
  {
    hide DelimitedBytes, EntryBody;
    assert keys[k..][1..] == keys[k + 1..];
    if k > 0 {
      EntriesShrink(c, keys, hard, k - 1);
    } else {
      assert keys[0..] == keys;
    }
  }

  /** One map entry, written from its end: the value, the key, and the length of
      both, found from where the cursor stood before. */
  method PrependEntry(c: Codec<Quantity>, dAtA: array<byte>, baseI: nat, key: Str, value: Quantity, ghost was: seq<byte>, ghost out: seq<byte>)
    returns (i: nat)
    requires baseI + |out| <= |was| == dAtA.Length <= MAX_INT && dAtA[..] == Splice(was, baseI, out)
    requires |DelimitedBytes(1, EntryBody(c, key, value))| <= baseI
    modifies dAtA
    ensures i == baseI - |DelimitedBytes(1, EntryBody(c, key, value))|
    ensures dAtA[..] == Splice(was, i, DelimitedBytes(1, EntryBody(c, key, value)) + out)
  {
    hide DelimitedBytes, Splice;
    ghost var body := EntryBody(c, key, value);
    var p := c.encode(value);
    DelimitedLength(1, key);
    DelimitedLength(2, p);
    DelimitedLength(1, body);
    i := PrependBytes(dAtA, baseI, p, was, out);
    i := PrependHeader(dAtA, i, 0x12, |p|, was, p, out);
    i := PrependBytes(dAtA, i, key, was, DelimitedBytes(2, p) + out);
    i := PrependHeader(dAtA, i, 0xa, |key|, was, key, DelimitedBytes(2, p) + out);
    Associate(DelimitedBytes(1, key), DelimitedBytes(2, p), out);
    i := PrependHeader(dAtA, i, 0xa, baseI - i, was, body, out);
  }

  /** The entry loop of TenantQuota.Unmarshal. */
  method DecodeEntry(c: Codec<Quantity>, dAtA: seq<byte>, start: nat, postIndex: nat)
    returns (mapkey: Str, mapvalue: Quantity, iNdEx: nat, err: Option<Error>)
    requires start <= postIndex <= |dAtA| <= MAX_INT
    ensures match EntryLoop(c, dAtA, postIndex, Entry([], c.zero, start))
            case Ok(e) => err.None? && e == Entry(mapkey, mapvalue, iNdEx)
            case Err(e) => err.Some? && SameError(e, err.value)
  {
    hide ReadVarint, ReadExtent, SkipFrom;
    mapkey, mapvalue, iNdEx, err := [], c.zero, start, None;
    while iNdEx < postIndex
      invariant iNdEx <= |dAtA|
      invariant EntryLoop(c, dAtA, postIndex, Entry([], c.zero, start)) ==
                EntryLoop(c, dAtA, postIndex, Entry(mapkey, mapvalue, iNdEx))
      decreases |dAtA| - iNdEx
    {
      var entryPreIndex := iNdEx;
      var wire, first, past;
      wire, iNdEx, err := DecodeVarint(dAtA, iNdEx, W64);
      if err.Some? { return; }
      var fieldNum := Signed(wire / 8, W32);
      if fieldNum == 1 {
        first, past, err := DecodeLength(dAtA, iNdEx);
        if err.Some? { return; }
        mapkey := dAtA[first..past];
        iNdEx := past;
      } else if fieldNum == 2 {
        first, past, err := DecodeLength(dAtA, iNdEx);
        if err.Some? { return; }
        match c.merge(c.zero, dAtA[first..past]) {
          case Ok(q) => mapvalue := q;
          case Err(e) => return mapkey, mapvalue, iNdEx, Some(e);
        }
        iNdEx := past;
      } else {
        iNdEx, err := SkipUnknown(dAtA, entryPreIndex, postIndex);
        if err.Some? { return; }
      }
    }
    err := None;
  }

  // -------------------------------------------------------------------- the spec

  /** A foreign message's own MarshalToSizedBuffer. */
  method PrependForeign<T>(c: Codec<T>, v: T, dAtA: array<byte>, i: nat, ghost was: seq<byte>, ghost out: seq<byte>)
    returns (size: nat)
    requires |c.encode(v)| <= i && i + |out| <= |was| == dAtA.Length && dAtA[..] == Splice(was, i, out)
    modifies dAtA
    ensures size == |c.encode(v)|
    ensures dAtA[..] == Splice(was, i - size, c.encode(v) + out)
  {
    var j := PrependBytes(dAtA, i, c.encode(v), was, out);
    size := i - j;
  }

  class TenantSpec {
    var id: int32
    const quota: TenantQuota
    var suspension: TenantSuspension?
    var credentialValidity: Option<Duration>
    var capacity: TenantCapacity?

    ghost function Repr(): set<object>
      reads this
    {
      {this, quota} + (if suspension == null then {} else {suspension}) + (if capacity == null then {} else {capacity})
    }

    ghost function Value(): Spec
      reads Repr()
    {
      Spec(id, quota.Value(),
           if suspension == null then None else Some(suspension.Value()),
           credentialValidity,
           if capacity == null then None else Some(capacity.Value()))
    }

    constructor ()
      ensures fresh(Repr()) && Value() == ZERO_SPEC
    {
      id := 0;
      quota := new TenantQuota();
      suspension, credentialValidity, capacity := null, None, null;
    }

    method Size(c: Codecs) returns (n: nat)
      ensures n == |EncodeSpec(c, Value())|
    {
      hide DelimitedBytes, Sov, EncodeVarint, EncodeQuota, EncodeSuspension, EncodeCapacity;
      OneByte(8);
      SovCountsDigits(AsUint64(id));
      n := 1 + Sov(AsUint64(id));
      var l := quota.Size(c.quantity);
      SizeOfDelimited(2, EncodeQuota(c.quantity, quota.Value()));
      n := n + 1 + l + Sov(l);
      if suspension != null {
        l := suspension.Size();
        SizeOfDelimited(3, EncodeSuspension(suspension.Value()));
        n := n + 1 + l + Sov(l);
      }
      if credentialValidity.Some? {
        l := |c.duration.encode(credentialValidity.value)|;
        SizeOfDelimited(4, c.duration.encode(credentialValidity.value));
        n := n + 1 + l + Sov(l);
      }
      if capacity != null {
        l := capacity.Size();
        SizeOfDelimited(5, EncodeCapacity(capacity.Value()));
        n := n + 1 + l + Sov(l);
      }
    }

    /** The three optional submessages, each of which is written unless it is nil. */
    method PrependCapacity(dAtA: array<byte>, i: nat, ghost was: seq<byte>, ghost out: seq<byte>) returns (j: nat)
      requires i + |out| <= |was| == dAtA.Length <= MAX_INT && dAtA[..] == Splice(was, i, out)
      requires |OptionalBytes(5, Encoded(Value().capacity, EncodeCapacity))| <= i
      modifies dAtA
      ensures j == i - |OptionalBytes(5, Encoded(Value().capacity, EncodeCapacity))|
      ensures dAtA[..] == Splice(was, j, OptionalBytes(5, Encoded(Value().capacity, EncodeCapacity)) + out)
    {
      hide DelimitedBytes, EncodeCapacity, Splice;
      j := i;
      AppendNothing(out);
      if capacity != null {
        ghost var p := EncodeCapacity(capacity.Value());
        DelimitedLength(5, p);
        var size := capacity.MarshalToSizedBuffer(dAtA, i);
        SplicePrepend(was, i, out, p);
        j := PrependHeader(dAtA, i - size, 0x2a, size, was, p, out);
      }
    }

    method PrependValidity(c: Codecs, dAtA: array<byte>, i: nat, ghost was: seq<byte>, ghost out: seq<byte>) returns (j: nat)
      requires i + |out| <= |was| == dAtA.Length <= MAX_INT && dAtA[..] == Splice(was, i, out)
      requires |OptionalBytes(4, Encoded(credentialValidity, c.duration.encode))| <= i
      modifies dAtA
      ensures j == i - |OptionalBytes(4, Encoded(credentialValidity, c.duration.encode))|
      ensures dAtA[..] == Splice(was, j, OptionalBytes(4, Encoded(credentialValidity, c.duration.encode)) + out)
    {
      hide DelimitedBytes, Splice;
      j := i;
      AppendNothing(out);
      if credentialValidity.Some? {
        ghost var p := c.duration.encode(credentialValidity.value);
        DelimitedLength(4, p);
        var size := PrependForeign(c.duration, credentialValidity.value, dAtA, i, was, out);
        j := PrependHeader(dAtA, i - size, 0x22, size, was, p, out);
      }
    }

    method PrependSuspension(dAtA: array<byte>, i: nat, ghost was: seq<byte>, ghost out: seq<byte>) returns (j: nat)
      requires i + |out| <= |was| == dAtA.Length <= MAX_INT && dAtA[..] == Splice(was, i, out)
      requires |OptionalBytes(3, Encoded(Value().suspension, EncodeSuspension))| <= i
      modifies dAtA
      ensures j == i - |OptionalBytes(3, Encoded(Value().suspension, EncodeSuspension))|
      ensures dAtA[..] == Splice(was, j, OptionalBytes(3, Encoded(Value().suspension, EncodeSuspension)) + out)
    {
      hide DelimitedBytes, EncodeSuspension, Splice;
      j := i;
      AppendNothing(out);
      if suspension != null {
        ghost var p := EncodeSuspension(suspension.Value());
        DelimitedLength(3, p);
        var size := suspension.MarshalToSizedBuffer(dAtA, i);
        SplicePrepend(was, i, out, p);
        j := PrependHeader(dAtA, i - size, 0x1a, size, was, p, out);
      }
    }

    method MarshalToSizedBuffer(c: Codecs, dAtA: array<byte>, end: nat) returns (n: nat)
      requires |EncodeSpec(c, Value())| <= end <= dAtA.Length <= MAX_INT
      modifies dAtA
      ensures n == |EncodeSpec(c, Value())|
      ensures dAtA[..] == Splice(old(dAtA[..]), end - n, EncodeSpec(c, Value()))
    {
      hide DelimitedBytes, ScalarBytes, OptionalBytes, EncodeQuota, EncodeSuspension, EncodeCapacity, Splice;
      ghost var m, was := Value(), dAtA[..];
      ghost var p := EncodeQuota(c.quantity, m.quota);
      ghost var x3 := OptionalBytes(3, Encoded(m.suspension, EncodeSuspension));
      ghost var x4 := OptionalBytes(4, Encoded(m.credentialValidity, c.duration.encode));
      ghost var x5 := OptionalBytes(5, Encoded(m.capacity, EncodeCapacity));
      NothingWritten(was, end);
      AppendNothing(x5);
      DelimitedLength(2, p);
      var i := PrependCapacity(dAtA, end, was, []);
      i := PrependValidity(c, dAtA, i, was, x5);
      i := PrependSuspension(dAtA, i, was, x4 + x5);
      var size := quota.MarshalToSizedBuffer(c.quantity, dAtA, i);
      SplicePrepend(was, i, x3 + (x4 + x5), p);
      i := PrependHeader(dAtA, i - size, 0x12, size, was, p, x3 + (x4 + x5));
      i := PrependScalar(dAtA, i, 0x8, AsUint64(id), was, DelimitedBytes(2, p) + (x3 + (x4 + x5)));
      return end - i;
    }

    method Marshal(c: Codecs) returns (dAtA: seq<byte>)
      requires |EncodeSpec(c, Value())| <= MAX_INT
      ensures dAtA == EncodeSpec(c, Value())
    {
      hide EncodeSpec;
      var size := Size(c);
      var buffer := new byte[size];
      var n := MarshalToSizedBuffer(c, buffer, size);
      dAtA := buffer[..n];
    }

    /** The payload of each submessage field, merged into what is there. */
    method MergeQuotaField(c: Codecs, p: seq<byte>) returns (err: Option<Error>)
      requires |p| <= MAX_INT
      modifies Repr()
      ensures unchanged(this)
      ensures Agrees(MergeQuota(c, old(Value()), p), Value(), err)
    {
      hide Decode;
      err := quota.Unmarshal(c.quantity, p);
    }

    method MergeSuspensionField(p: seq<byte>) returns (err: Option<Error>)
      requires |p| <= MAX_INT
      modifies Repr()
      ensures fresh(Repr() - old(Repr()))
      ensures Agrees(MergeSuspension(old(Value()), p), Value(), err)
    {
      hide Decode;
      if suspension == null {
        suspension := new TenantSuspension();
      }
      err := suspension.Unmarshal(p);
    }

    method MergeValidityField(c: Codecs, p: seq<byte>) returns (err: Option<Error>)
      modifies this
      ensures Repr() == old(Repr())
      ensures Agrees(MergeValidity(c, old(Value()), p), Value(), err)
    {
      if credentialValidity.None? {
        credentialValidity := Some(c.duration.zero);
      }
      match c.duration.merge(credentialValidity.value, p) {
        case Ok(v) =>
          credentialValidity := Some(v);
          err := None;
        case Err(e) =>
          err := Some(e);
      }
    }

    method MergeCapacityField(p: seq<byte>) returns (err: Option<Error>)
      requires |p| <= MAX_INT
      modifies Repr()
      ensures fresh(Repr() - old(Repr()))
      ensures Agrees(MergeCapacity(old(Value()), p), Value(), err)
    {
      hide Decode;
      if capacity == null {
        capacity := new TenantCapacity();
      }
      err := capacity.Unmarshal(p);
    }

    /** The body of the decoding loop: one field, known or not. */
    method UnmarshalField(c: Codecs, dAtA: seq<byte>, preIndex: nat) returns (iNdEx: nat, err: Option<Error>)
      requires preIndex < |dAtA| <= MAX_INT
      modifies Repr()
      ensures fresh(Repr() - old(Repr()))
      ensures match Step(SpecSchema(c), old(Value()), dAtA, preIndex)
              case Ok(st) => err.None? && Value() == st.m && iNdEx == st.next
              case Err(e) => err.Some? && SameError(e, err.value)
    {
      hide ReadVarint, ReadTag, ReadExtent, SkipFrom, MergeQuota, MergeSuspension, MergeValidity, MergeCapacity;
      ghost var s, m := SpecSchema(c), Value();
      var fieldNum, wireType, postIndex;
      fieldNum, wireType, iNdEx, err := DecodeTag(dAtA, preIndex);
      if err.Some? { return; }
      match fieldNum {
        case 1 =>
          if wireType != 0 { return iNdEx, Some(WrongWireType); }
          var v;
          v, iNdEx, err := DecodeInt32(dAtA, iNdEx);
          if err.Some? { return; }
          id := v;
        case 2 =>
          PayloadTurn(s, m, dAtA, preIndex, (m: Spec, p: seq<byte>) => MergeQuota(c, m, p));
          if wireType != 2 { return iNdEx, Some(WrongWireType); }
          iNdEx, postIndex, err := DecodeLength(dAtA, iNdEx);
          if err.Some? { return; }
          err := MergeQuotaField(c, dAtA[iNdEx..postIndex]);
          iNdEx := postIndex;
        case 3 =>
          PayloadTurn(s, m, dAtA, preIndex, (m: Spec, p: seq<byte>) => MergeSuspension(m, p));
          if wireType != 2 { return iNdEx, Some(WrongWireType); }
          iNdEx, postIndex, err := DecodeLength(dAtA, iNdEx);
          if err.Some? { return; }
          err := MergeSuspensionField(dAtA[iNdEx..postIndex]);
          iNdEx := postIndex;
        case 4 =>
          PayloadTurn(s, m, dAtA, preIndex, (m: Spec, p: seq<byte>) => MergeValidity(c, m, p));
          if wireType != 2 { return iNdEx, Some(WrongWireType); }
          iNdEx, postIndex, err := DecodeLength(dAtA, iNdEx);
          if err.Some? { return; }
          err := MergeValidityField(c, dAtA[iNdEx..postIndex]);
          iNdEx := postIndex;
        case 5 =>
          PayloadTurn(s, m, dAtA, preIndex, (m: Spec, p: seq<byte>) => MergeCapacity(m, p));
          if wireType != 2 { return iNdEx, Some(WrongWireType); }
          iNdEx, postIndex, err := DecodeLength(dAtA, iNdEx);
          if err.Some? { return; }
          err := MergeCapacityField(dAtA[iNdEx..postIndex]);
          iNdEx := postIndex;
        case _ =>
          iNdEx, err := SkipUnknown(dAtA, preIndex, |dAtA|);
      }
    }

    method Unmarshal(c: Codecs, dAtA: seq<byte>) returns (err: Option<Error>)
      requires |dAtA| <= MAX_INT
      modifies Repr()
      ensures fresh(Repr() - old(Repr()))
      ensures Agrees(Decode(SpecSchema(c), old(Value()), dAtA), Value(), err)
    {
      hide Decode, Step, SpecSchema;
      var l, iNdEx := |dAtA|, 0;
      while iNdEx < l
        invariant iNdEx <= l
        invariant fresh(Repr() - old(Repr()))
        invariant Decode(SpecSchema(c), old(Value()), dAtA) == Decode(SpecSchema(c), Value(), dAtA, iNdEx)
        decreases l - iNdEx
      {
        DecodeTurn(SpecSchema(c), Value(), dAtA, iNdEx);
        iNdEx, err := UnmarshalField(c, dAtA, iNdEx);
        if err.Some? { return; }
      }
      DecodeEnd(SpecSchema(c), Value(), dAtA);
      if iNdEx > l { return Some(UnexpectedEOF); }
      return None;
    }
  }

  /** What protobuf_test.go asks for: a spec that is marshalled and unmarshalled into
      a new one is the same spec. */
  method MarshalUnmarshal(c: Codecs, original: TenantSpec) returns (out: TenantSpec, err: Option<Error>)
    requires AllLawful(c) && |EncodeSpec(c, original.Value())| <= MAX_INT
    ensures err.None? && fresh(out.Repr()) && out.Value() == original.Value()
  {
    hide Decode, EncodeSpec, SpecSchema;
    var dAtA := original.Marshal(c);
    SpecRoundTrip(c, original.Value());
    out := new TenantSpec();
    err := out.Unmarshal(c, dAtA);
  }
}
