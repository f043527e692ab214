/** What concatenated inputs and unknown fields mean for the tenant messages. */
module TenantMerging {
  import opened Common
  import opened Varint
  import opened WireFields
  import opened Message
  import opened TenantMessages

  // ------------------------------------------------------------ concatenation

  /** A TenantSpec reads x followed by y as y merged into what x gave. */
  lemma SpecsMerge(c: Codecs, m: Spec, x: seq<byte>, y: seq<byte>)
    requires Decode(SpecSchema(c), m, x).Ok?
    ensures Decode(SpecSchema(c), m, x + y) == Decode(SpecSchema(c), Decode(SpecSchema(c), m, x).value, y)
  {
    hide Decode;
    SpecIsStable(c);
    ConcatenationMerges(SpecSchema(c), m, x, y);
  }

  /** So does a TenantQuota, although it reads entries past their end: what x read of
      its own bytes it still reads the same. */
  lemma QuotasMerge(c: Codec<Quantity>, m: Quota, x: seq<byte>, y: seq<byte>)
    requires Decode(QuotaSchema(c), m, x).Ok?
    ensures Decode(QuotaSchema(c), m, x + y) == Decode(QuotaSchema(c), Decode(QuotaSchema(c), m, x).value, y)
  {
    hide Decode;
    QuotaIsStable(c);
    ConcatenationMerges(QuotaSchema(c), m, x, y);
  }

  lemma CapacitiesMerge(m: Capacity, x: seq<byte>, y: seq<byte>)
    requires Decode(CapacitySchema(), m, x).Ok?
    ensures Decode(CapacitySchema(), m, x + y) == Decode(CapacitySchema(), Decode(CapacitySchema(), m, x).value, y)
  {
    hide Decode;
    CapacityIsStable();
    ConcatenationMerges(CapacitySchema(), m, x, y);
  }

  lemma SuspensionsMerge(m: Suspension, x: seq<byte>, y: seq<byte>)
    requires Decode(SuspensionSchema(), m, x).Ok?
    ensures Decode(SuspensionSchema(), m, x + y) == Decode(SuspensionSchema(), Decode(SuspensionSchema(), m, x).value, y)
  {
    hide Decode;
    SuspensionIsStable();
    ConcatenationMerges(SuspensionSchema(), m, x, y);
  }

  lemma StatusesMerge(m: Status, x: seq<byte>, y: seq<byte>)
    requires Decode(StatusSchema(), m, x).Ok?
    ensures Decode(StatusSchema(), m, x + y) == Decode(StatusSchema(), Decode(StatusSchema(), m, x).value, y)
  {
    hide Decode;
    StatusIsStable();
    ConcatenationMerges(StatusSchema(), m, x, y);
  }

  lemma TenantsMerge(c: Codecs, m: Tenant, x: seq<byte>, y: seq<byte>)
    requires Decode(TenantSchema(c), m, x).Ok?
    ensures Decode(TenantSchema(c), m, x + y) == Decode(TenantSchema(c), Decode(TenantSchema(c), m, x).value, y)
  {
    hide Decode;
    TenantIsStable(c);
    ConcatenationMerges(TenantSchema(c), m, x, y);
  }

  // -------------------------------------------------- submessages merge in place

  /** A field that came in two pieces is the field with the pieces joined. */
  lemma JoinedField<M(!new)>(s: Schema<M>, m: M, number: nat, f: (M, seq<byte>) -> Result<M>, p: seq<byte>, q: seq<byte>)
    requires 0 < number < 16 && |p| + |q| <= MAX_INT && s(number) == Payload(f)
    requires f(m, p).Ok? && f(m, p + q) == f(f(m, p).value, q)
    ensures Decode(s, m, DelimitedBytes(number, p) + DelimitedBytes(number, q)) == Decode(s, m, DelimitedBytes(number, p + q))
  {
    hide DelimitedBytes, Step;
    var x, y, z := DelimitedBytes(number, p), DelimitedBytes(number, q), DelimitedBytes(number, p + q);
    var m1 := f(m, p).value;
    Whole(x + y);
    AtConcat(x + y, 0, x, y);
    Whole(z);
    var a := DelimitedStep(s, m, x + y, 0, number, p);
    var b := DelimitedStep(s, m1, x + y, |x|, number, q);
    var e := DelimitedStep(s, m, z, 0, number, p + q);
    DelimitedLength(number, p);
    DelimitedLength(number, q);
    DelimitedLength(number, p + q);
    if f(m1, q).Ok? {
      DecodeEnd(s, f(m1, q).value, x + y);
      DecodeEnd(s, f(m1, q).value, z);
    }
    assert Decode(s, m, x + y) == Decode(s, m1, x + y, |x|);
  }

  /** Quota, suspension and capacity: the second piece is merged into the first. */
  lemma SpecSubmessagesMerge(c: Codecs, m: Spec, p: seq<byte>, q: seq<byte>)
    requires |p| + |q| <= MAX_INT
    ensures MergeQuota(c, m, p).Ok? ==>
              Decode(SpecSchema(c), m, DelimitedBytes(2, p) + DelimitedBytes(2, q)) == Decode(SpecSchema(c), m, DelimitedBytes(2, p + q))
    ensures MergeSuspension(m, p).Ok? ==>
              Decode(SpecSchema(c), m, DelimitedBytes(3, p) + DelimitedBytes(3, q)) == Decode(SpecSchema(c), m, DelimitedBytes(3, p + q))
    ensures MergeCapacity(m, p).Ok? ==>
              Decode(SpecSchema(c), m, DelimitedBytes(5, p) + DelimitedBytes(5, q)) == Decode(SpecSchema(c), m, DelimitedBytes(5, p + q))
  {
    hide Decode, DelimitedBytes;
    QuotaIsStable(c.quantity);
    SuspensionIsStable();
    CapacityIsStable();
    if MergeQuota(c, m, p).Ok? {
      ConcatenationMerges(QuotaSchema(c.quantity), m.quota, p, q);
      JoinedField(SpecSchema(c), m, 2, (m: Spec, p: seq<byte>) => MergeQuota(c, m, p), p, q);
    }
    if MergeSuspension(m, p).Ok? {
      ConcatenationMerges(SuspensionSchema(), if m.suspension.Some? then m.suspension.value else ZERO_SUSPENSION, p, q);
      JoinedField(SpecSchema(c), m, 3, (m: Spec, p: seq<byte>) => MergeSuspension(m, p), p, q);
    }
    if MergeCapacity(m, p).Ok? {
      ConcatenationMerges(CapacitySchema(), if m.capacity.Some? then m.capacity.value else ZERO_CAPACITY, p, q);
      JoinedField(SpecSchema(c), m, 5, (m: Spec, p: seq<byte>) => MergeCapacity(m, p), p, q);
    }
  }

  /** What a foreign message has to do for its pieces to merge as well. */
  ghost predicate Merges<T(!new)>(c: Codec<T>) {
    forall v: T, p: seq<byte>, q: seq<byte> | c.merge(v, p).Ok? :: c.merge(v, p + q) == c.merge(c.merge(v, p).value, q)
  }

  /** credentialValidity is merged in place if the foreign duration merges. */
  lemma ValidityPiecesMerge(c: Codecs, m: Spec, p: seq<byte>, q: seq<byte>)
    requires Merges(c.duration) && |p| + |q| <= MAX_INT && MergeValidity(c, m, p).Ok?
    ensures Decode(SpecSchema(c), m, DelimitedBytes(4, p) + DelimitedBytes(4, q)) == Decode(SpecSchema(c), m, DelimitedBytes(4, p + q))
  {
    hide Decode, DelimitedBytes;
    JoinedField(SpecSchema(c), m, 4, (m: Spec, p: seq<byte>) => MergeValidity(c, m, p), p, q);
  }

  /** The submessages of a Tenant merge too, the metadata if the foreign one does. */
  lemma TenantSubmessagesMerge(c: Codecs, m: Tenant, p: seq<byte>, q: seq<byte>)
    requires Merges(c.objectMeta) && |p| + |q| <= MAX_INT
    ensures MergeMeta(c, m, p).Ok? ==>
              Decode(TenantSchema(c), m, DelimitedBytes(1, p) + DelimitedBytes(1, q)) == Decode(TenantSchema(c), m, DelimitedBytes(1, p + q))
    ensures MergeSpec(c, m, p).Ok? ==>
              Decode(TenantSchema(c), m, DelimitedBytes(2, p) + DelimitedBytes(2, q)) == Decode(TenantSchema(c), m, DelimitedBytes(2, p + q))
    ensures MergeStatus(m, p).Ok? ==>
              Decode(TenantSchema(c), m, DelimitedBytes(3, p) + DelimitedBytes(3, q)) == Decode(TenantSchema(c), m, DelimitedBytes(3, p + q))
  {
    hide Decode, DelimitedBytes;
    if MergeMeta(c, m, p).Ok? {
      JoinedField(TenantSchema(c), m, 1, (m: Tenant, p: seq<byte>) => MergeMeta(c, m, p), p, q);
    }
    if MergeSpec(c, m, p).Ok? {
      SpecsMerge(c, m.spec, p, q);
      JoinedField(TenantSchema(c), m, 2, (m: Tenant, p: seq<byte>) => MergeSpec(c, m, p), p, q);
    }
    if MergeStatus(m, p).Ok? {
      StatusesMerge(m.status, p, q);
      JoinedField(TenantSchema(c), m, 3, (m: Tenant, p: seq<byte>) => MergeStatus(m, p), p, q);
    }
  }

  // -------------------------------------------------------- forward compatibility

  /** A TenantSpec ignores unknown fields between any two of its fields. */
  lemma UnknownFieldInSpec(c: Codecs, m: Spec, d: seq<byte>, k: nat, f: Field)
    requires k <= |d| && Boundary(SpecSchema(c), m, d, 0, k)
    requires WellFormed(f) && NumberOf(f) > 5
    ensures Decode(SpecSchema(c), m, d[..k] + (Bytes(f) + d[k..])) == Decode(SpecSchema(c), m, d)
  {
    hide Decode, Boundary, Bytes, WellFormed;
    SpecIsStable(c);
    UnknownFieldAtBoundary(SpecSchema(c), m, d, k, f);
  }

  /** A spec written by a newer program, with one more field anywhere between the
      known ones, is read as the spec without it. */
  lemma NewerSpecIsRead(c: Codecs, m: Spec, k: nat, f: Field)
    requires AllLawful(c) && |EncodeSpec(c, m)| <= MAX_INT && k <= |EncodeSpec(c, m)|
    requires Boundary(SpecSchema(c), ZERO_SPEC, EncodeSpec(c, m), 0, k)
    requires WellFormed(f) && NumberOf(f) > 5
    ensures var d := EncodeSpec(c, m);
            Decode(SpecSchema(c), ZERO_SPEC, d[..k] + (Bytes(f) + d[k..])) == Ok(m)
  {
    hide Decode, Boundary, Bytes, WellFormed, EncodeSpec;
    SpecRoundTrip(c, m);
    UnknownFieldInSpec(c, ZERO_SPEC, EncodeSpec(c, m), k, f);
  }
}
