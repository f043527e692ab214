/** The tenant messages as values: which fields they have, how they are laid out on
    the wire, and that decoding an encoding gives the message back. */
module TenantMessages {
  import opened Common
  import opened Varint
  import opened WireFields
  import opened Message
  import opened SortedKeys

  // ------------------------------------------------------------ foreign messages

  /** Messages of other packages, which stand here only for what their own
      generated code does. */
  type Quantity(!new, ==)
  type Duration(!new, ==)
  type ObjectMeta(!new, ==)

  datatype Codec<!T> = Codec(zero: T, encode: T -> seq<byte>, merge: (T, seq<byte>) -> Result<T>)

  /** What is assumed of a foreign message: unmarshalling what it marshals into its
      zero value gives it back. */
  ghost predicate Lawful<T(!new)>(c: Codec<T>) {
    forall v: T :: c.merge(c.zero, c.encode(v)) == Ok(v)
  }

  datatype Codecs = Codecs(quantity: Codec<Quantity>, duration: Codec<Duration>, objectMeta: Codec<ObjectMeta>)

  ghost predicate AllLawful(c: Codecs) {
    Lawful(c.quantity) && Lawful(c.duration) && Lawful(c.objectMeta)
  }

  // -------------------------------------------------------------------- messages

  type int32 = x: int | -0x8000_0000 <= x < 0x8000_0000

  function Int32(v: nat): int32 {
    Signed(v, W32)
  }

  datatype Capacity = Capacity(
    maxNamespaces: Option<int32>,
    maxClusterRoleBindings: Option<int32>,
    maxCRDs: Option<int32>)

  datatype Suspension = Suspension(mode: Str, reason: Str)

  datatype Status = Status(online: bool)

  /** A nil and an empty Go map are the same value here. */
  datatype Quota = Quota(hard: map<Str, Quantity>)

  datatype Spec = Spec(
    id: int32,
    quota: Quota,
    suspension: Option<Suspension>,
    credentialValidity: Option<Duration>,
    capacity: Option<Capacity>)

  datatype Tenant = Tenant(objectMeta: ObjectMeta, spec: Spec, status: Status)

  const ZERO_CAPACITY := Capacity(None, None, None)
  const ZERO_SUSPENSION := Suspension([], [])
  const ZERO_QUOTA := Quota(map[])
  const ZERO_SPEC := Spec(0, ZERO_QUOTA, None, None, None)
  const ZERO_STATUS := Status(false)

  // -------------------------------------------------------------------- decoding

  function CapacitySchema(): Schema<Capacity> {
    (number: int) =>
      if number == 1 then Scalar((m: Capacity, v: nat) => m.(maxNamespaces := Some(Int32(v))))
      else if number == 2 then Scalar((m: Capacity, v: nat) => m.(maxClusterRoleBindings := Some(Int32(v))))
      else if number == 3 then Scalar((m: Capacity, v: nat) => m.(maxCRDs := Some(Int32(v))))
      else Unknown
  }

  function SetMode(m: Suspension, p: seq<byte>): Result<Suspension> {
    Ok(m.(mode := p))
  }

  function SetReason(m: Suspension, p: seq<byte>): Result<Suspension> {
    Ok(m.(reason := p))
  }

  function SuspensionSchema(): Schema<Suspension> {
    (number: int) =>
      if number == 1 then Payload(SetMode)
      else if number == 2 then Payload(SetReason)
      else Unknown
  }

  function StatusSchema(): Schema<Status> {
    (number: int) =>
      if number == 1 then Scalar((m: Status, v: nat) => m.(online := Truncate(v, W64) != 0))
      else Unknown
  }

  /** The fields of one map entry as far as they have been read, and the index after
      the last one, which may lie beyond the entry. */
  datatype Entry = Entry(key: Str, value: Quantity, end: nat)

  /** One field of an entry that ends at `post`. Its reads are bounded by the end of
      the whole input, not by `post`; neither the wire type nor the sign of the field
      number is checked. */
  function EntryStep(c: Codec<Quantity>, d: seq<byte>, post: nat, e: Entry): (r: Result<Entry>)
    ensures r.Ok? ==> e.end < r.value.end <= |d|
  {
    var tag :- ReadVarint(d, e.end);
    var number := FieldNumber(tag.value);
    if number == 1 then
      var x :- ReadExtent(d, tag.next);
      Ok(Entry(d[x.start..x.post], e.value, x.post))
    else if number == 2 then
      var x :- ReadExtent(d, tag.next);
      var q :- c.merge(c.zero, d[x.start..x.post]);
      Ok(Entry(e.key, q, x.post))
    else
      var next :- Skip(d, e.end);
      if next > post then Err(UnexpectedEOF) else Ok(Entry(e.key, e.value, next))
  }

  /** The entry loop of TenantQuota: it starts new fields only before `post`. */
  function EntryLoop(c: Codec<Quantity>, d: seq<byte>, post: nat, e: Entry): Result<Entry>
    decreases |d| - e.end
  {
    if e.end >= post then Ok(e)
    else
      var next :- EntryStep(c, d, post, e);
      EntryLoop(c, d, post, next)
  }

  function MergeEntry(c: Codec<Quantity>, m: Quota, d: seq<byte>, start: nat, post: nat): Result<Quota> {
    var e :- EntryLoop(c, d, post, Entry([], c.zero, start));
    Ok(Quota(m.hard[e.key := e.value]))
  }

  function QuotaSchema(c: Codec<Quantity>): Schema<Quota> {
    (number: int) =>
      if number == 1 then
        Delimited((m: Quota, d: seq<byte>, start: nat, post: nat) => MergeEntry(c, m, d, start, post))
      else Unknown
  }

  function MergeQuota(c: Codecs, m: Spec, p: seq<byte>): Result<Spec> {
    var v :- Decode(QuotaSchema(c.quantity), m.quota, p);
    Ok(m.(quota := v))
  }

  function MergeSuspension(m: Spec, p: seq<byte>): Result<Spec> {
    var v :- Decode(SuspensionSchema(), if m.suspension.Some? then m.suspension.value else ZERO_SUSPENSION, p);
    Ok(m.(suspension := Some(v)))
  }

  function MergeValidity(c: Codecs, m: Spec, p: seq<byte>): Result<Spec> {
    var v :- c.duration.merge(if m.credentialValidity.Some? then m.credentialValidity.value else c.duration.zero, p);
    Ok(m.(credentialValidity := Some(v)))
  }

  function MergeCapacity(m: Spec, p: seq<byte>): Result<Spec> {
    var v :- Decode(CapacitySchema(), if m.capacity.Some? then m.capacity.value else ZERO_CAPACITY, p);
    Ok(m.(capacity := Some(v)))
  }

  function SpecSchema(c: Codecs): Schema<Spec> {
    (number: int) =>
      if number == 1 then Scalar((m: Spec, v: nat) => m.(id := Int32(v)))
      else if number == 2 then Payload((m: Spec, p: seq<byte>) => MergeQuota(c, m, p))
      else if number == 3 then Payload((m: Spec, p: seq<byte>) => MergeSuspension(m, p))
      else if number == 4 then Payload((m: Spec, p: seq<byte>) => MergeValidity(c, m, p))
      else if number == 5 then Payload((m: Spec, p: seq<byte>) => MergeCapacity(m, p))
      else Unknown
  }

  function MergeMeta(c: Codecs, m: Tenant, p: seq<byte>): Result<Tenant> {
    var v :- c.objectMeta.merge(m.objectMeta, p);
    Ok(m.(objectMeta := v))
  }

  function MergeSpec(c: Codecs, m: Tenant, p: seq<byte>): Result<Tenant> {
    var v :- Decode(SpecSchema(c), m.spec, p);
    Ok(m.(spec := v))
  }

  function MergeStatus(m: Tenant, p: seq<byte>): Result<Tenant> {
    var v :- Decode(StatusSchema(), m.status, p);
    Ok(m.(status := v))
  }

  function TenantSchema(c: Codecs): Schema<Tenant> {
    (number: int) =>
      if number == 1 then Payload((m: Tenant, p: seq<byte>) => MergeMeta(c, m, p))
      else if number == 2 then Payload((m: Tenant, p: seq<byte>) => MergeSpec(c, m, p))
      else if number == 3 then Payload((m: Tenant, p: seq<byte>) => MergeStatus(m, p))
      else Unknown
  }

  // -------------------------------------------------------------------- encoding

  function OptionalInt32(number: nat, v: Option<int32>): seq<byte> {
    if v.None? then [] else ScalarBytes(number, AsUint64(v.value))
  }

  function EncodeCapacity(m: Capacity): seq<byte> {
    OptionalInt32(1, m.maxNamespaces) + (OptionalInt32(2, m.maxClusterRoleBindings) + OptionalInt32(3, m.maxCRDs))
  }

  function EncodeSuspension(m: Suspension): seq<byte> {
    DelimitedBytes(1, m.mode) + DelimitedBytes(2, m.reason)
  }

  function EncodeStatus(m: Status): seq<byte> {
    ScalarBytes(1, if m.online then 1 else 0)
  }

  function EntryBody(c: Codec<Quantity>, key: Str, value: Quantity): seq<byte> {
    DelimitedBytes(1, key) + DelimitedBytes(2, c.encode(value))
  }

  function EncodeEntries(c: Codec<Quantity>, keys: seq<Str>, hard: map<Str, Quantity>): seq<byte>
    requires forall k | k in keys :: k in hard
  {
    if keys == [] then []
    else DelimitedBytes(1, EntryBody(c, keys[0], hard[keys[0]])) + EncodeEntries(c, keys[1..], hard)
  }

  lemma {:induction false} ListingElements(ks: set<Str>)
    ensures forall k :: k in Listing(ks) <==> k in ks
    decreases |ks|
  {
    if ks != {} {
      var k := Least(ks);
      ListingElements(ks - {k});
      assert forall j :: j in Listing(ks) <==> j == k || j in Listing(ks - {k});
    }
  }

  /** Entries stand in increasing order of their keys. */
  ghost function EncodeQuota(c: Codec<Quantity>, m: Quota): seq<byte> {
    ListingElements(m.hard.Keys);
    EncodeEntries(c, Listing(m.hard.Keys), m.hard)
  }

  function OptionalBytes(number: nat, p: Option<seq<byte>>): seq<byte> {
    if p.None? then [] else DelimitedBytes(number, p.value)
  }

  function Encoded<T>(v: Option<T>, encode: T -> seq<byte>): Option<seq<byte>> {
    if v.None? then None else Some(encode(v.value))
  }

  ghost function EncodeSpec(c: Codecs, m: Spec): seq<byte> {
    ScalarBytes(1, AsUint64(m.id)) +
    (DelimitedBytes(2, EncodeQuota(c.quantity, m.quota)) +
     (OptionalBytes(3, Encoded(m.suspension, EncodeSuspension)) +
      (OptionalBytes(4, Encoded(m.credentialValidity, c.duration.encode)) +
       OptionalBytes(5, Encoded(m.capacity, EncodeCapacity)))))
  }

  ghost function EncodeTenant(c: Codecs, m: Tenant): seq<byte> {
    DelimitedBytes(1, c.objectMeta.encode(m.objectMeta)) +
    (DelimitedBytes(2, EncodeSpec(c, m.spec)) + DelimitedBytes(3, EncodeStatus(m.status)))
  }

  // ------------------------------------------------------- laws of the schemas

  lemma EntryStepPrefix(c: Codec<Quantity>, x: seq<byte>, y: seq<byte>, post: nat, e: Entry)
    requires EntryStep(c, x, post, e).Ok?
    ensures EntryStep(c, x + y, post, e) == EntryStep(c, x, post, e)
  {
    ReadVarintPrefix(x, y, e.end);
    var tag := ReadVarint(x, e.end).value;
    if FieldNumber(tag.value) in {1, 2} {
      ReadVarintPrefix(x, y, tag.next);
      var t := ReadExtent(x, tag.next).value;
      assert (x + y)[t.start..t.post] == x[t.start..t.post];
    } else {
      PrefixAt(x, y, e.end, Skip(x, e.end).value);
      SkipCopy(x, e.end, x + y, e.end);
    }
  }

  lemma {:induction false} EntryPrefix(c: Codec<Quantity>, x: seq<byte>, y: seq<byte>, post: nat, e: Entry)
    requires EntryLoop(c, x, post, e).Ok?
    ensures EntryLoop(c, x + y, post, e) == EntryLoop(c, x, post, e)
    decreases |x| - e.end
  {
    if e.end < post {
      EntryStepPrefix(c, x, y, post, e);
      EntryPrefix(c, x, y, post, EntryStep(c, x, post, e).value);
    }
  }

  function Shifted(e: Entry, i: nat): Entry {
    e.(end := i + e.end)
  }

  function MoveEntry(r: Result<Entry>, i: nat): Result<Entry> {
    match r
    case Ok(e) => Ok(Shifted(e, i))
    case Err(e) => Err(e)
  }

  lemma ExtentMoved(d: seq<byte>, i: nat, y: seq<byte>, j: nat)
    requires EndsWith(d, i, y)
    ensures match ReadExtent(y, j)
            case Err(e) => ReadExtent(d, i + j) == Err(e)
            case Ok(t) => ReadExtent(d, i + j) == Ok(Extent(i + t.start, i + t.post))
                          && d[i + t.start..i + t.post] == y[t.start..t.post]
  {
    ReadVarintMoved(d, i, y, j);
    if ReadExtent(y, j).Ok? {
      var t := ReadExtent(y, j).value;
      MovedSlice(d, i, y, t.start, t.post);
    }
  }

  lemma EntryStepMoved(c: Codec<Quantity>, d: seq<byte>, i: nat, y: seq<byte>, post: nat, e: Entry)
    requires EndsWith(d, i, y)
    ensures EntryStep(c, d, i + post, Shifted(e, i)) == MoveEntry(EntryStep(c, y, post, e), i)
  {
    hide ReadVarint, ReadExtent, SkipFrom;
    ReadVarintMoved(d, i, y, e.end);
    if ReadVarint(y, e.end).Ok? {
      var tag := ReadVarint(y, e.end).value;
      if FieldNumber(tag.value) in {1, 2} {
        ExtentMoved(d, i, y, tag.next);
      } else {
        SkipMoved(d, i, y, e.end, 0);
      }
    }
  }

  lemma {:induction false} EntryMoved(c: Codec<Quantity>, d: seq<byte>, i: nat, y: seq<byte>, post: nat, e: Entry)
    requires EndsWith(d, i, y)
    ensures EntryLoop(c, d, i + post, Shifted(e, i)) == MoveEntry(EntryLoop(c, y, post, e), i)
    decreases |y| - e.end
  {
    if e.end < post {
      EntryStepMoved(c, d, i, y, post, e);
      var next := EntryStep(c, y, post, e);
      if next.Ok? { EntryMoved(c, d, i, y, post, next.value); }
    }
  }

  lemma QuotaIsStable(c: Codec<Quantity>)
    ensures Stable(QuotaSchema(c))
  {
    hide EntryLoop;
    var s := QuotaSchema(c);
    forall number: int, m: Quota, x: seq<byte>, y: seq<byte>, start: nat, post: nat
      ensures KeepsAt(s(number), m, x, y, start, post)
    {
      var e := Entry([], c.zero, start);
      if number == 1 && EntryLoop(c, x, post, e).Ok? {
        EntryPrefix(c, x, y, post, e);
      }
    }
    forall number: int, m: Quota, d: seq<byte>, i: nat, y: seq<byte>, start: nat, post: nat
      ensures MovesAt(s(number), m, d, i, y, start, post)
    {
      if number == 1 && EndsWith(d, i, y) {
        EntryMoved(c, d, i, y, post, Entry([], c.zero, start));
      }
    }
  }

  lemma CapacityIsStable()
    ensures Stable(CapacitySchema()) && Local(CapacitySchema())
  {
  }

  lemma StatusIsStable()
    ensures Stable(StatusSchema()) && Local(StatusSchema())
  {
  }

  lemma SuspensionIsStable()
    ensures Stable(SuspensionSchema()) && Local(SuspensionSchema())
  {
    PayloadIsStable(SuspensionSchema()(1), SetMode);
    PayloadIsStable(SuspensionSchema()(2), SetReason);
  }

  lemma SpecIsStable(c: Codecs)
    ensures Stable(SpecSchema(c)) && Local(SpecSchema(c))
  {
    hide MergeQuota, MergeSuspension, MergeValidity, MergeCapacity, Payload;
    PayloadIsStable(SpecSchema(c)(2), (m: Spec, p: seq<byte>) => MergeQuota(c, m, p));
    PayloadIsStable(SpecSchema(c)(3), (m: Spec, p: seq<byte>) => MergeSuspension(m, p));
    PayloadIsStable(SpecSchema(c)(4), (m: Spec, p: seq<byte>) => MergeValidity(c, m, p));
    PayloadIsStable(SpecSchema(c)(5), (m: Spec, p: seq<byte>) => MergeCapacity(m, p));
  }

  lemma TenantIsStable(c: Codecs)
    ensures Stable(TenantSchema(c)) && Local(TenantSchema(c))
  {
    hide MergeMeta, MergeSpec, MergeStatus, Payload;
    PayloadIsStable(TenantSchema(c)(1), (m: Tenant, p: seq<byte>) => MergeMeta(c, m, p));
    PayloadIsStable(TenantSchema(c)(2), (m: Tenant, p: seq<byte>) => MergeSpec(c, m, p));
    PayloadIsStable(TenantSchema(c)(3), (m: Tenant, p: seq<byte>) => MergeStatus(m, p));
  }

  // ------------------------------------------------------------------ round trip

  lemma Int32Kept(v: int32)
    ensures Int32(AsUint64(v)) == v
  {
  }

  lemma ScalarField<M>(s: Schema<M>, m: M, d: seq<byte>, i: nat, number: nat, v: nat)
    requires 0 < number < 16 && v < TWO_TO_64 && s(number).Scalar?
    requires At(d, i, ScalarBytes(number, v))
    ensures Decode(s, m, d, i) == Decode(s, s(number).store(m, v), d, i + |ScalarBytes(number, v)|)
  {
    hide Step, ScalarBytes;
    ScalarStep(s, m, d, i, number, v);
  }

  lemma OptionalInt32Field<M>(s: Schema<M>, m: M, d: seq<byte>, i: nat, number: nat, v: Option<int32>)
    requires 0 < number < 16 && s(number).Scalar? && At(d, i, OptionalInt32(number, v))
    ensures Decode(s, m, d, i) ==
            Decode(s, if v.None? then m else s(number).store(m, AsUint64(v.value)), d, i + |OptionalInt32(number, v)|)
    ensures v.Some? ==> Int32(AsUint64(v.value)) == v.value
  {
    hide Decode, ScalarBytes;
    if v.Some? {
      Int32Kept(v.value);
      ScalarField(s, m, d, i, number, AsUint64(v.value));
    }
  }

  lemma PayloadField<M>(s: Schema<M>, m: M, d: seq<byte>, i: nat, number: nat, p: seq<byte>, f: (M, seq<byte>) -> Result<M>, merged: M)
    requires 0 < number < 16 && |p| <= MAX_INT && s(number) == Payload(f) && f(m, p) == Ok(merged)
    requires At(d, i, DelimitedBytes(number, p))
    ensures Decode(s, m, d, i) == Decode(s, merged, d, i + |DelimitedBytes(number, p)|)
  {
    hide Step, DelimitedBytes;
    var start := DelimitedStep(s, m, d, i, number, p);
  }

  lemma DelimitedLength(number: nat, p: seq<byte>)
    ensures |p| < |DelimitedBytes(number, p)|
  {
  }

  lemma Whole(d: seq<byte>)
    ensures At(d, 0, d)
  {
    assert d[0..|d|] == d;
  }

  lemma CapacityRoundTrip(m: Capacity)
    ensures Decode(CapacitySchema(), ZERO_CAPACITY, EncodeCapacity(m)) == Ok(m)
  {
    hide Decode, ScalarBytes;
    var s, d := CapacitySchema(), EncodeCapacity(m);
    var x, y, z := OptionalInt32(1, m.maxNamespaces), OptionalInt32(2, m.maxClusterRoleBindings), OptionalInt32(3, m.maxCRDs);
    assert At(d, 0, x) && At(d, |x|, y) && At(d, |x| + |y|, z) by {
      Whole(d);
      AtConcat(d, 0, x, y + z);
      AtConcat(d, |x|, y, z);
    }
    var m1 := Capacity(m.maxNamespaces, None, None);
    var m2 := m1.(maxClusterRoleBindings := m.maxClusterRoleBindings);
    assert Decode(s, ZERO_CAPACITY, d) == Decode(s, m1, d, |x|) by {
      OptionalInt32Field(s, ZERO_CAPACITY, d, 0, 1, m.maxNamespaces);
    }
    assert Decode(s, m1, d, |x|) == Decode(s, m2, d, |x| + |y|) by {
      OptionalInt32Field(s, m1, d, |x|, 2, m.maxClusterRoleBindings);
    }
    DecodeEnd(s, m, d);
    assert Decode(s, m2, d, |x| + |y|) == Decode(s, m, d, |d|) by {
      OptionalInt32Field(s, m2, d, |x| + |y|, 3, m.maxCRDs);
    }
  }

  lemma SuspensionRoundTrip(m: Suspension)
    requires |EncodeSuspension(m)| <= MAX_INT
    ensures Decode(SuspensionSchema(), ZERO_SUSPENSION, EncodeSuspension(m)) == Ok(m)
  {
    hide Decode, DelimitedBytes;
    var d := EncodeSuspension(m);
    var x, y := DelimitedBytes(1, m.mode), DelimitedBytes(2, m.reason);
    Whole(d);
    AtConcat(d, 0, x, y);
    DelimitedLength(1, m.mode);
    DelimitedLength(2, m.reason);
    PayloadField(SuspensionSchema(), ZERO_SUSPENSION, d, 0, 1, m.mode, SetMode, Suspension(m.mode, []));
    PayloadField(SuspensionSchema(), Suspension(m.mode, []), d, |x|, 2, m.reason, SetReason, m);
    DecodeEnd(SuspensionSchema(), m, d);
  }

  lemma StatusRoundTrip(m: Status)
    ensures Decode(StatusSchema(), ZERO_STATUS, EncodeStatus(m)) == Ok(m)
  {
    hide Decode, ScalarBytes;
    Whole(EncodeStatus(m));
    ScalarField(StatusSchema(), ZERO_STATUS, EncodeStatus(m), 0, 1, if m.online then 1 else 0);
    DecodeEnd(StatusSchema(), m, EncodeStatus(m));
  }

  /** Both fields of an entry are read within it, and nothing else. */
  lemma EntryRead(c: Codec<Quantity>, d: seq<byte>, start: nat, key: Str, value: Quantity)
    requires Lawful(c) && |EntryBody(c, key, value)| <= MAX_INT && At(d, start, EntryBody(c, key, value))
    ensures var post := start + |EntryBody(c, key, value)|;
            EntryLoop(c, d, post, Entry([], c.zero, start)) == Ok(Entry(key, value, post))
  {
    hide DelimitedBytes, EntryStep, EntryLoop;
    var k, v := DelimitedBytes(1, key), DelimitedBytes(2, c.encode(value));
    AtConcat(d, start, k, v);
    var post := start + |k| + |v|;
    DelimitedLength(1, key);
    DelimitedLength(2, c.encode(value));
    EntryKeyRead(c, d, start, post, key);
    EntryValueRead(c, d, start + |k|, post, key, value);
    TwoSteps(c, d, post, Entry([], c.zero, start), Entry(key, c.zero, start + |k|), Entry(key, value, post));
  }

  lemma TwoSteps(c: Codec<Quantity>, d: seq<byte>, post: nat, e: Entry, e1: Entry, e2: Entry)
    requires e.end < post && EntryStep(c, d, post, e) == Ok(e1)
    requires e1.end < post && EntryStep(c, d, post, e1) == Ok(e2)
    requires e2.end >= post
    ensures EntryLoop(c, d, post, e) == Ok(e2)
  {
    assert EntryLoop(c, d, post, e1) == EntryLoop(c, d, post, e2);
  }

  lemma EntryKeyRead(c: Codec<Quantity>, d: seq<byte>, start: nat, post: nat, key: Str)
    requires |key| <= MAX_INT && At(d, start, DelimitedBytes(1, key))
    ensures EntryStep(c, d, post, Entry([], c.zero, start)) == Ok(Entry(key, c.zero, start + |DelimitedBytes(1, key)|))
  {
    hide EncodeVarint, ReadVarint, ReadExtent;
    AtConcat(d, start, Key(1, 2), EncodeVarint(|key|) + key);
    ReadEncodedUint64(d, start, 10);
    ExtentRead(d, start + |Key(1, 2)|, key);
  }

  lemma EntryValueRead(c: Codec<Quantity>, d: seq<byte>, start: nat, post: nat, key: Str, value: Quantity)
    requires Lawful(c) && |c.encode(value)| <= MAX_INT && At(d, start, DelimitedBytes(2, c.encode(value)))
    ensures EntryStep(c, d, post, Entry(key, c.zero, start)) ==
            Ok(Entry(key, value, start + |DelimitedBytes(2, c.encode(value))|))
  {
    hide EncodeVarint, ReadVarint, ReadExtent;
    var p := c.encode(value);
    AtConcat(d, start, Key(2, 2), EncodeVarint(|p|) + p);
    ReadEncodedUint64(d, start, 18);
    ExtentRead(d, start + |Key(2, 2)|, p);
  }

  /** hard, restricted to the keys of a list. */
  ghost function Only(hard: map<Str, Quantity>, keys: seq<Str>): map<Str, Quantity> {
    map k | k in hard && k in keys :: hard[k]
  }

  lemma EntryField(c: Codec<Quantity>, m: Quota, d: seq<byte>, i: nat, key: Str, value: Quantity)
    requires Lawful(c) && |d| <= MAX_INT && At(d, i, DelimitedBytes(1, EntryBody(c, key, value)))
    ensures Decode(QuotaSchema(c), m, d, i) ==
            Decode(QuotaSchema(c), Quota(m.hard[key := value]), d, i + |DelimitedBytes(1, EntryBody(c, key, value))|)
  {
    hide DelimitedBytes, EntryBody, EntryLoop;
    var body := EntryBody(c, key, value);
    DelimitedLength(1, body);
    var start := DelimitedStep(QuotaSchema(c), m, d, i, 1, body);
    EntryRead(c, d, start, key, value);
  }

  lemma {:induction false} EntriesRead(c: Codec<Quantity>, m: Quota, d: seq<byte>, i: nat, keys: seq<Str>, hard: map<Str, Quantity>)
    requires Lawful(c) && |d| <= MAX_INT && forall k | k in keys :: k in hard
    requires i + |EncodeEntries(c, keys, hard)| == |d| && At(d, i, EncodeEntries(c, keys, hard))
    ensures Decode(QuotaSchema(c), m, d, i) == Ok(Quota(m.hard + Only(hard, keys)))
    decreases |keys|
  {
    hide Decode, DelimitedBytes, EntryBody;
    if keys == [] {
      DecodeEnd(QuotaSchema(c), m, d);
      assert m.hard + Only(hard, keys) == m.hard;
    } else {
      var k, rest := keys[0], keys[1..];
      var entry := DelimitedBytes(1, EntryBody(c, k, hard[k]));
      AtConcat(d, i, entry, EncodeEntries(c, rest, hard));
      EntryField(c, m, d, i, k, hard[k]);
      EntriesRead(c, Quota(m.hard[k := hard[k]]), d, i + |entry|, rest, hard);
      assert m.hard[k := hard[k]] + Only(hard, rest) == m.hard + Only(hard, keys);
    }
  }

  lemma QuotaRoundTrip(c: Codec<Quantity>, m: Quota)
    requires Lawful(c) && |EncodeQuota(c, m)| <= MAX_INT
    ensures Decode(QuotaSchema(c), ZERO_QUOTA, EncodeQuota(c, m)) == Ok(m)
  {
    hide Decode, EncodeEntries;
    var keys := Listing(m.hard.Keys);
    ListingElements(m.hard.Keys);
    Whole(EncodeQuota(c, m));
    EntriesRead(c, ZERO_QUOTA, EncodeQuota(c, m), 0, keys, m.hard);
    assert map[] + Only(m.hard, keys) == m.hard;
  }

  /** A submessage of a TenantSpec that may be absent. */
  lemma OptionalField<M, T>(s: Schema<M>, m: M, d: seq<byte>, i: nat, number: nat, v: Option<T>, encode: T -> seq<byte>,
                            f: (M, seq<byte>) -> Result<M>, merged: M)
    requires 0 < number < 16 && |d| <= MAX_INT && s(number) == Payload(f)
    requires At(d, i, OptionalBytes(number, Encoded(v, encode)))
    requires if v.None? then merged == m else f(m, encode(v.value)) == Ok(merged)
    ensures Decode(s, m, d, i) == Decode(s, merged, d, i + |OptionalBytes(number, Encoded(v, encode))|)
  {
    hide Decode, DelimitedBytes;
    if v.Some? {
      DelimitedLength(number, encode(v.value));
      PayloadField(s, m, d, i, number, encode(v.value), f, merged);
    }
  }

  lemma SpecParts(d: seq<byte>, a: seq<byte>, b: seq<byte>, e: seq<byte>, f: seq<byte>, g: seq<byte>)
    requires d == a + (b + (e + (f + g)))
    ensures At(d, 0, a) && At(d, |a|, b) && At(d, |a| + |b|, e)
    ensures At(d, |a| + |b| + |e|, f) && At(d, |a| + |b| + |e| + |f|, g)
    ensures |d| == |a| + |b| + |e| + |f| + |g|
  {
    Whole(d);
    AtConcat(d, 0, a, b + (e + (f + g)));
    AtConcat(d, |a|, b, e + (f + g));
    AtConcat(d, |a| + |b|, e, f + g);
    AtConcat(d, |a| + |b| + |e|, f, g);
  }

  lemma SpecId(c: Codecs, m: Spec, d: seq<byte>, i: nat, id: int32)
    requires At(d, i, ScalarBytes(1, AsUint64(id)))
    ensures Decode(SpecSchema(c), m, d, i) == Decode(SpecSchema(c), m.(id := id), d, i + |ScalarBytes(1, AsUint64(id))|)
  {
    hide Decode, ScalarBytes;
    Int32Kept(id);
    ScalarField(SpecSchema(c), m, d, i, 1, AsUint64(id));
  }

  lemma SpecQuota(c: Codecs, m: Spec, d: seq<byte>, i: nat, quota: Quota)
    requires AllLawful(c) && |d| <= MAX_INT && m.quota == ZERO_QUOTA
    requires At(d, i, DelimitedBytes(2, EncodeQuota(c.quantity, quota)))
    ensures Decode(SpecSchema(c), m, d, i) ==
            Decode(SpecSchema(c), m.(quota := quota), d, i + |DelimitedBytes(2, EncodeQuota(c.quantity, quota))|)
  {
    hide Decode, EncodeQuota;
    var p := EncodeQuota(c.quantity, quota);
    DelimitedLength(2, p);
    QuotaRoundTrip(c.quantity, quota);
    PayloadField(SpecSchema(c), m, d, i, 2, p, (m: Spec, p: seq<byte>) => MergeQuota(c, m, p), m.(quota := quota));
  }

  lemma SpecSuspension(c: Codecs, m: Spec, d: seq<byte>, i: nat, v: Option<Suspension>)
    requires |d| <= MAX_INT && m.suspension.None?
    requires At(d, i, OptionalBytes(3, Encoded(v, EncodeSuspension)))
    ensures Decode(SpecSchema(c), m, d, i) ==
            Decode(SpecSchema(c), m.(suspension := v), d, i + |OptionalBytes(3, Encoded(v, EncodeSuspension))|)
  {
    hide Decode;
    if v.Some? {
      DelimitedLength(3, EncodeSuspension(v.value));
      SuspensionRoundTrip(v.value);
    }
    OptionalField(SpecSchema(c), m, d, i, 3, v, EncodeSuspension,
                  (m: Spec, p: seq<byte>) => MergeSuspension(m, p), m.(suspension := v));
  }

  lemma SpecValidity(c: Codecs, m: Spec, d: seq<byte>, i: nat, v: Option<Duration>)
    requires AllLawful(c) && |d| <= MAX_INT && m.credentialValidity.None?
    requires At(d, i, OptionalBytes(4, Encoded(v, c.duration.encode)))
    ensures Decode(SpecSchema(c), m, d, i) ==
            Decode(SpecSchema(c), m.(credentialValidity := v), d, i + |OptionalBytes(4, Encoded(v, c.duration.encode))|)
  {
    hide Decode;
    OptionalField(SpecSchema(c), m, d, i, 4, v, c.duration.encode,
                  (m: Spec, p: seq<byte>) => MergeValidity(c, m, p), m.(credentialValidity := v));
  }

  lemma SpecCapacity(c: Codecs, m: Spec, d: seq<byte>, i: nat, v: Option<Capacity>)
    requires |d| <= MAX_INT && m.capacity.None?
    requires At(d, i, OptionalBytes(5, Encoded(v, EncodeCapacity)))
    ensures Decode(SpecSchema(c), m, d, i) ==
            Decode(SpecSchema(c), m.(capacity := v), d, i + |OptionalBytes(5, Encoded(v, EncodeCapacity))|)
  {
    hide Decode;
    if v.Some? { CapacityRoundTrip(v.value); }
    OptionalField(SpecSchema(c), m, d, i, 5, v, EncodeCapacity,
                  (m: Spec, p: seq<byte>) => MergeCapacity(m, p), m.(capacity := v));
  }

  /** Every TenantSpec survives the wire: what is absent stays absent, what is
      present keeps its value. The length bound is that of a Go slice. */
  lemma SpecRoundTrip(c: Codecs, m: Spec)
    requires AllLawful(c) && |EncodeSpec(c, m)| <= MAX_INT
    ensures Decode(SpecSchema(c), ZERO_SPEC, EncodeSpec(c, m)) == Ok(m)
  {
    hide Decode, DelimitedBytes, ScalarBytes, OptionalBytes, EncodeQuota;
    var d := EncodeSpec(c, m);
    var x1, x2 := ScalarBytes(1, AsUint64(m.id)), DelimitedBytes(2, EncodeQuota(c.quantity, m.quota));
    var x3 := OptionalBytes(3, Encoded(m.suspension, EncodeSuspension));
    var x4 := OptionalBytes(4, Encoded(m.credentialValidity, c.duration.encode));
    var x5 := OptionalBytes(5, Encoded(m.capacity, EncodeCapacity));
    SpecParts(d, x1, x2, x3, x4, x5);
    SpecId(c, ZERO_SPEC, d, 0, m.id);
    var m1 := ZERO_SPEC.(id := m.id);
    SpecQuota(c, m1, d, |x1|, m.quota);
    var m2 := m1.(quota := m.quota);
    SpecSuspension(c, m2, d, |x1| + |x2|, m.suspension);
    var m3 := m2.(suspension := m.suspension);
    SpecValidity(c, m3, d, |x1| + |x2| + |x3|, m.credentialValidity);
    var m4 := m3.(credentialValidity := m.credentialValidity);
    SpecCapacity(c, m4, d, |x1| + |x2| + |x3| + |x4|, m.capacity);
    DecodeEnd(SpecSchema(c), m, d);
  }

  function ZeroTenant(c: Codecs): Tenant {
    Tenant(c.objectMeta.zero, ZERO_SPEC, ZERO_STATUS)
  }

  lemma TenantRoundTrip(c: Codecs, m: Tenant)
    requires AllLawful(c) && |EncodeTenant(c, m)| <= MAX_INT
    ensures Decode(TenantSchema(c), ZeroTenant(c), EncodeTenant(c, m)) == Ok(m)
  {
    hide Decode, DelimitedBytes, EncodeSpec;
    var d, s, m0 := EncodeTenant(c, m), TenantSchema(c), ZeroTenant(c);
    var p1, p2, p3 := c.objectMeta.encode(m.objectMeta), EncodeSpec(c, m.spec), EncodeStatus(m.status);
    var x1, x2, x3 := DelimitedBytes(1, p1), DelimitedBytes(2, p2), DelimitedBytes(3, p3);
    Whole(d);
    AtConcat(d, 0, x1, x2 + x3);
    AtConcat(d, |x1|, x2, x3);
    DelimitedLength(1, p1);
    DelimitedLength(2, p2);
    DelimitedLength(3, p3);
    SpecRoundTrip(c, m.spec);
    StatusRoundTrip(m.status);
    PayloadField(s, m0, d, 0, 1, p1, (m: Tenant, p: seq<byte>) => MergeMeta(c, m, p), m0.(objectMeta := m.objectMeta));
    var m1 := m0.(objectMeta := m.objectMeta);
    PayloadField(s, m1, d, |x1|, 2, p2, (m: Tenant, p: seq<byte>) => MergeSpec(c, m, p), m1.(spec := m.spec));
    PayloadField(s, m1.(spec := m.spec), d, |x1| + |x2|, 3, p3, (m: Tenant, p: seq<byte>) => MergeStatus(m, p), m);
    DecodeEnd(s, m, d);
  }
}
